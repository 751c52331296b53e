# Verified models of the SystemConfiguration framework

This project models six parts of the SystemConfiguration repository in Dafny and proves what they are for:

- **the network state block** (`nwi_state`): records of both address families in one array, linked by relative
  offsets; the interface list merged from both; differences of two states; generations carried from state to state;
- **Ethernet bonds**: bringing the kernel's bonds in line with the stored ones, and editing the stored ones;
- **the DNS configuration decoder**: nested type-length-value records, pointer lists claimed from trailing padding;
- **the helper's server port**, cached for many threads;
- **configurations and enabled states in the preferences**, with the session's notification scheduling;
- **the text for reachability flags**, written into a bounded buffer.

Code that updates memory in place is modelled by classes and methods with loops, each tied by its `ensures` to a
function of the old state (or to the property itself); the lemmas are about those functions, over all inputs and
over all runs. `dafny verify dfyconfig.toml` checks everything.

## How the files fit together

| files | subject |
|---|---|
| `Options` | `Option<T>` |
| `IfFlags`, `IfStates` | one interface record: its flag word in parts, name lookup |
| `StateModel`, `StateRuns` | the block as a value: what operations and runs of them keep, what links are for |
| `InterfaceList`, `StateDiff`, `Generations` | the interface list, the difference, the generations, as functions with their theorems |
| `StateBlock`, `StateUpdates` | the block in memory, each method proved against those functions |
| `BondKernel`, `BondPlan` | the kernel's bond table; which requests the update issues |
| `BondReconcile`, `BondSteps`, `BondUpdate` | safety, convergence, minimality, idempotence; the update as it runs |
| `BondSafety` | what stays legal when requests fail |
| `BondPrefs` | the stored bonds and the calls that edit them |
| `DnsLayout`, `DnsDecode` | bytes and attribute records; what a configuration says and when it can be expanded |
| `DnsDocumented` | the same in numbers, as the headers document it |
| `DnsSlots`, `DnsResolver` | the lists in the padding and the slots written; one resolver expanded, as a function |
| `DnsLists`, `DnsExpansion` | the lists of a configuration; the whole expansion as a function, with its theorems |
| `DnsOverfull` | a resolver with more nameservers than it states |
| `DnsMemory`, `DnsFields`, `DnsRegions` | the bytes of a buffer as the expansion rewrites them; why its parts do not overlap |
| `DnsClient` | a client, which reads nothing but bytes, and what it sees of what was rewritten |
| `DnsSteady`, `DnsReadBack` | which bytes stay as they came; exactly when a client reads what the bytes said |
| `DnsUnended` | a string that runs into a pointer |
| `DnsBuffer` | the buffer, an array of bytes, and its expansion in place, proved against those functions |
| `DnsEncode`, `DnsRoundTrip` | an encoder for the documented layout; round trips; unknown attributes |
| `DnsDelivery` | from the encoder through the buffer in memory to a client |
| `HelperCache`, `HelperAnswers` | interleaved threads over the cached port; what each of them answers |
| `ConfigStore`, `InterfaceConfig` | one configuration path; an interface's configuration over all its paths |
| `PrefsSchedule` | session, run loops and dispatch queue of a preferences session |
| `ReachabilityFlags`, `ReachabilityNames`, `ReachabilityReading` | the flags printer; which flags it names; what its text says |

## What turned out not to hold as one might expect

Each of these is a lemma with a concrete case or an exact condition.

- Clearing one address family leaves links behind in the other: the state stays linked exactly when the other
  family had no links (`StateModel.ClearOneLinked`); `StateRuns.ClearOneBreaksLinks` is a run of three operations that breaks one.
- A bond handle whose member list is out of date can put an interface into two bonds
  (`BondPrefs.StaleHandleBreaksDisjointness`); the exact condition is `BondPrefs.SetKeepsDisjoint`. Duplicates in a
  requested member list are not looked for (`BondPrefs.SetKeepsNoDuplicates`, an equivalence;
  `BondPrefs.DuplicatesAreAccepted`).
- A bond update that reports success leaves out configured members that do not support bonding and were not already
  in the bond (`BondReconcile.FinalIsConfigured`, an equivalence; `BondReconcile.UnsupportedIsLeftOut`).
- A bond update need not settle. If the configured first member cannot be bonded and was not the bond's first one, and
  another member can be, then every later update removes all members of the live bond and adds them again
  (`BondSteps.UpdateIsIdempotent`, an equivalence over all configurations; `BondSteps.UnsettledForever`).
- The expansion of a DNS configuration rewrites the very buffer whose strings and addresses a client reads later.
  It does not check that they end within their attributes, and a resolver's `cid` and `if_name` are not reset. A client
  reads what the bytes said, wherever the buffer is and whatever lies beyond it, exactly when each value ends in the
  buffer at bytes that keep their value, and those two pointers came as NULL or are set by an attribute
  (`DnsReadBack.ReadBackIffUndisturbed`); values that end within their attributes suffice
  (`DnsReadBack.ContainedIsUndisturbed`). A domain without its NUL, right before the padding, runs into the first slot:
  it is read rightly exactly when the lowest byte of the resolver's address is zero (`DnsUnended.UnendedIsDisturbed`).
- The expansion of a DNS configuration checks the counts only after its loops. A list with more attributes than its
  count is filled beyond its claimed slots: each pointer goes to a slot of its own list exactly while no list is given
  more than was claimed for it (`DnsResolver.LoopStores`, `DnsExpansion.EntriesStore`). A resolver that states one
  nameserver and has more is refused only after slots past the end of the buffer were written
  (`DnsOverfull.OverfullOverruns`); without such lists no slot lies outside the padding, whether the expansion succeeds
  or fails (`DnsExpansion.ExpansionConfined`).
- A thread can deallocate a helper port it never tried when lookups found that port number twice
  (`HelperCache.ReusedNameIsDroppedUntried`); at most once, and it cannot (`HelperCache.OnlyOwnFailureDeallocates`). For
  every port the bound on the lookups is exactly one (`HelperCache.OwnFailureIffFoundOnce`).
- Writing a configuration through the interface enables a disabled entity again (`ConfigStore.PlainWriteEnables`), and
  a configuration held back is read normalised, as a saved one is, exactly when it is neither a value other than a
  dictionary nor a dictionary of only the inactive key (`InterfaceConfig.ReadAfterWrite`, cases in
  `InterfaceConfig.HeldIsNotNormalised`).
- A scheduling that fails after the session was added leaves that session behind (`PrefsSchedule.LeftOver`).
- For no flags at all, in debug mode, the smallest buffers the printer accepts lose the opening parenthesis instead of
  naming "Not Reachable": the text is right exactly from 29 characters on (`ReachabilityFlags.NoFlags`).

## Model

| member | source | states |
|---|---|---|
| `IfFlags.MasksReadParts` | libsystem_configuration/network_state_information_priv.c:36-43 | Each mask of the 64-bit flag word extracts exactly its part: the public bits, the difference code, the last-item bit. |
| `IfFlags.MaskWritesPublic` | libsystem_configuration/network_state_information_priv.c:364-365 | The masked assignment of the public flags replaces those and keeps the difference code and the last-item bit. |
| `IfFlags.MaskWritesDiff` | libsystem_configuration/network_state_information_priv.c:469-476 | Setting the difference code, by clearing and then or-ing unless it is zero, replaces that part of the word only. |
| `IfFlags.MaskSetsLast` | libsystem_configuration/network_state_information_priv.c:333 | Or-ing the last-item bit sets that part only. |
| `IfFlags.MaskClearsLast` | libsystem_configuration/network_state_information_priv.c:327 | Masking the last-item bit off clears that part only. |
| `IfStates.IndexOf` | libsystem_configuration/network_state_information_priv.h:267-278 | Name lookup finds the first record of the name, or says that there is none. |
| `StateBlock.Block.constructor` | libsystem_configuration/network_state_information_priv.c:202-206 | A new block has no live records, no interface list and zero generation and reachability flags. |
| `StateBlock.Block.GetWithIndex` | libsystem_configuration/network_state_information_priv.h:220-239 | Index lookup gives the position of a live record, IPv6 after all IPv4 slots, and nothing beyond the count. |
| `StateBlock.Block.GetWithName` | libsystem_configuration/network_state_information_priv.h:249-279 | The scanning loop, on a block or on none, finds the first live record of the name. |
| `StateBlock.Block.GetAlias` | libsystem_configuration/network_state_information_priv.h:202-212 | Following an offset gives the record's position in the other family, or nothing for offset 0. |
| `StateBlock.Block.AddToIfList` | libsystem_configuration/network_state_information_priv.c:89-118 | A record is entered unless it is excluded, the list is full, or its interface is already listed. |
| `StateBlock.Block.PrefersV4` | libsystem_configuration/network_state_information_priv.c:134-144 | Of the two next records the better rank goes first, IPv4 on equal ranks. |
| `StateBlock.Block.SetIfList` | libsystem_configuration/network_state_information_priv.c:120-163 | The two-pointer loop terminates and computes the interface list that the theorems below describe. |
| `InterfaceList.IfListIsReference` | libsystem_configuration/network_state_information_priv.c:89-163 | The list is the first max_if_count of: merge both families by rank, drop excluded records, keep the first of each name. |
| `InterfaceList.IfListBestRanks` | libsystem_configuration/network_state_information_priv.c:89-163 | With sorted families the list is strictly ordered by rank, lists each interface once and at its best eligible record, and leaves an eligible one out only when full of better ones. |
| `StateBlock.Block.FixAfAliases` | libsystem_configuration/network_state_information_priv.c:53-87 | Every link that is set is moved by the growth, forward in the IPv4 half and backward in the IPv6 half; other fields stay. |
| `StateBlock.Block.TakeOver` | libsystem_configuration/network_state_information_priv.c:208-225 | Growing copies both families, moves the IPv6 records, corrects the links and recomputes the interface list; generation and flags are not copied. |
| `StateBlock.Block.New` | libsystem_configuration/network_state_information_priv.c:184-231 | No block for no capacity, the old block when it is large enough, else a fresh one holding the grown state. |
| `StateBlock.Block.Finalize` | libsystem_configuration/network_state_information_priv.c:233-241 | Finalising recomputes the interface list from the records. |
| `StateBlock.Block.ClearFamily` | libsystem_configuration/network_state_information_priv.c:369-381 | Clearing a family drops its records and nothing else. |
| `StateBlock.Block.AddAlias` | libsystem_configuration/network_state_information_priv.c:272-286 | A record and its namesake of the other family get offsets that lead to each other. |
| `StateBlock.Block.AppendEmpty` | libsystem_configuration/network_state_information_priv.c:323-337 | The appended record is blank but for name, family and last-item mark, which its predecessor loses; it is linked to its namesake. |
| `StateBlock.Block.SetFields` | libsystem_configuration/network_state_information_priv.c:340-366 | Address (by family), reachability flags, rank and public flags are set; the rest of the record stays. |
| `StateBlock.Block.AddIfState` | libsystem_configuration/network_state_information_priv.c:288-367 | Adding does in memory what the function Add does to the state, and returns the record's position or none. |
| `StateRuns.AddRefused` | libsystem_configuration/network_state_information_priv.c:301-322 | An add is refused exactly when the name is there at a better rank, or is new and the family is full; then nothing changes. |
| `StateRuns.AddAccepted` | libsystem_configuration/network_state_information_priv.c:308-366 | An accepted add leaves the named record with the given flags, rank, reachability and address (of the family's size; the old one if none is given), its other contents as they were or blank, appends only for a new name, and changes no other record's content in either family. |
| `StateModel.AddKeepsFamilies` | libsystem_configuration/network_state_information_priv.c:288-381 | An add keeps capacity, family tags, unique names and the last-item mark on exactly the final record. |
| `StateModel.AddKeepsLinks` | libsystem_configuration/network_state_information_priv.c:272-367 | An add keeps every link at the distance to the record of the same name in the other family, or 0. |
| `StateModel.GrowKeepsLinks` | libsystem_configuration/network_state_information_priv.c:53-87 | Growing, with the offsets rewritten, keeps all links right. |
| `StateModel.ClearBothLinked` | libsystem_configuration/network_state_information_priv.c:369-381 | Clearing both families leaves no stale link. |
| `StateModel.ClearOneLinked` | libsystem_configuration/network_state_information_priv.c:369-381 | After clearing one family alone the links are right if and only if the other family had none. |
| `StateRuns.ClearOneBreaksLinks` | libsystem_configuration/network_state_information_priv.c:369-381 | Adding an interface to both families and clearing one leaves its record in the other with a link to nothing. |
| `StateRuns.RunFamilies` | libsystem_configuration/network_state_information_priv.c:184-381 | After any run of new, add, grow and clear each family is within capacity, name-unique, and marks exactly its final record. |
| `StateRuns.RunLinked` | libsystem_configuration/network_state_information_priv.c:184-381 | After any run in which every clear is of both families, or of one and then the other is cleared before the next add, all links are right. |
| `StateRuns.RunSorted` | libsystem_configuration/network_state_information_priv.c:301-331 | When each family is given ranks in order since it was last cleared, both families stay sorted by rank after any run. |
| `StateRuns.AliasByName` | libsystem_configuration/network_state_information_priv.h:202-212 | Alias resolution by offset gives what a search of the other family by name would give. |
| `StateRuns.LinkIffNamesake` | libsystem_configuration/network_state_information_priv.c:272-286 | A record's offset is non-zero if and only if the other family has a record of its name. |
| `StateRuns.LinkFollowed` | libsystem_configuration/network_state_information_priv.h:202-212 | A non-zero offset leads to a live record of the other family with the same name, whose offset is the negative and leads back. |
| `StateRuns.GrowTransparent` | libsystem_configuration/network_state_information_priv.c:208-225 | Growing gives the larger capacity and changes neither any record's content nor which record any record resolves to. |
| `StateUpdates.Append` | libsystem_configuration/network_state_information_priv.c:457-476 | The unchecked append adds the tagged copy at the end of its family, given the room that the callers are proved to have. |
| `StateUpdates.Compare` | libsystem_configuration/network_state_information_priv.c:437-505 | A record is added without a namesake; changed when public flags or the family's address octets differ; else risen, fallen or unchanged by rank alone. |
| `StateUpdates.AddChange` | libsystem_configuration/network_state_information_priv.c:478-507 | One record of the new state is appended with its tag. |
| `StateUpdates.Remove` | libsystem_configuration/network_state_information_priv.c:509-524 | A record of the old state is appended as removed unless the difference has its name already. |
| `StateUpdates.PopulateChanges` | libsystem_configuration/network_state_information_priv.c:532-547 | The first loop appends all new records of a family in order, tagged. |
| `StateUpdates.PopulateRemoves` | libsystem_configuration/network_state_information_priv.c:548-563 | The second loop then appends exactly the old records whose names are gone. |
| `StateUpdates.MaxAfCount` | libsystem_configuration/network_state_information_priv.c:567-574 | The larger of the two family counts. |
| `StateUpdates.DiffBlocks` | libsystem_configuration/network_state_information_priv.c:576-604 | The difference block is fresh and holds the difference of both families; it is absent only when both states are empty; no append overruns it. |
| `StateDiff.DiffTagsAll` | libsystem_configuration/network_state_information_priv.c:478-565 | For every name, the recorded tag is the one the two lists alone determine, and names of neither list are absent. |
| `StateDiff.CommonTag` | libsystem_configuration/network_state_information_priv.c:437-505 | The tag of a name that both states have, written out: changed exactly when the public flags or the family's address octets differ, else down, up or unchanged exactly as the rank went up, went down or stayed. |
| `StateDiff.LoneTag` | libsystem_configuration/network_state_information_priv.c:478-524 | A name of the new state only is tagged added, one of the old state only removed, one of neither is not there. |
| `StateDiff.MarkedIffFactsDiffer` | libsystem_configuration/network_state_information_priv.c:437-565 | A name is tagged as anything but unchanged exactly when public flags, address, rank or presence differ. |
| `StateDiff.DiffOrder` | libsystem_configuration/network_state_information_priv.c:526-565 | The difference is the new records in order, apart from their tags, then exactly the old records whose names are gone, otherwise unchanged, in their old order. |
| `StateDiff.DiffFits` | libsystem_configuration/network_state_information_priv.c:582-599 | The difference has the larger family count of each state as its capacity, and both of its families fit. |
| `StateDiff.DiffDual` | libsystem_configuration/network_state_information_priv.c:437-565 | Swapping the arguments swaps added with removed and risen with fallen, and keeps changed and unchanged. |
| `StateDiff.UnchangedIffSameFacts` | libsystem_configuration/network_state_information_priv.c:437-565 | All records are unchanged if and only if both states give the same public flags, address and rank to every name. |
| `StateUpdates.InterfaceHasChanged` | libsystem_configuration/network_state_information_priv.c:615-641 | An interface has changed if and only if some family of the difference has a record of its name with a tag other than unchanged. |
| `StateUpdates.UpdateOne` | libsystem_configuration/network_state_information_priv.c:660-698 | One record gets the current generation if its interface changed, else the old record's; one already current is passed over in the IPv6 loop. |
| `StateUpdates.UpdateFamily` | libsystem_configuration/network_state_information_priv.c:658-699 | Each loop gives every record of its family its generation and changes nothing else. |
| `StateUpdates.UpdateGenerations` | libsystem_configuration/network_state_information_priv.c:643-701 | The whole update of generations, absent states included. |
| `Generations.AssertsNeverFail` | libsystem_configuration/network_state_information_priv.c:666-693 | With the difference of the two states themselves, the old record that the asserts demand is always there. |
| `Generations.ChangedIffFactsDiffer` | libsystem_configuration/network_state_information_priv.c:437-641 | The difference of two states reports an interface as changed exactly when public flags, address, rank or presence differ in some family. |
| `Generations.GenerationRenewed` | libsystem_configuration/network_state_information_priv.c:643-701 | One update gives a record the current generation exactly when such a fact of its interface differs in some family, or it has that generation already and is passed over; else that of the previous record of its name; nothing else in the record changes. |
| `Generations.GenerationIsLatestChange` | libsystem_configuration/network_state_information_priv.c:643-701 | Over any run of refreshes with non-zero generations, a recorded generation is that of the latest step at which public flags, address, rank or presence of the interface changed in some family. |
| `Generations.FamiliesAgree` | libsystem_configuration/network_state_information_priv.c:615-701 | Over any such run both families of one interface record the same generation. |
| `BondUpdate.RemoveUnconfigured` | SystemConfiguration/BondConfiguration.c:1558-1585 | Exactly the active members that are not configured are removed, in order, and the result tells whether all removals were granted. |
| `BondUpdate.RemoveForReorder` | SystemConfiguration/BondConfiguration.c:1687-1702 | Exactly the remaining members are removed when the lists start with different members. |
| `BondUpdate.AddAbsent` | SystemConfiguration/BondConfiguration.c:1711-1739 | Exactly the configured members not present are added, in order, passing over those that cannot be bonded. |
| `BondUpdate.AdjustList` | SystemConfiguration/BondConfiguration.c:1676-1739 | The member list of an active bond is brought in line, starting afresh when the first members differ. |
| `BondUpdate.Adjust` | SystemConfiguration/BondConfiguration.c:1644-1742 | Mode first, its failure ignored, then the member list. |
| `BondUpdate.EstablishNew` | SystemConfiguration/BondConfiguration.c:1757-1789 | A new bond is created, given its mode and filled; nothing is filled when it cannot be created. |
| `BondUpdate.CleanupActive` | SystemConfiguration/BondConfiguration.c:1538-1609 | An active bond loses what is not configured, or is destroyed when it is not configured itself. |
| `BondUpdate.CleanupPhase` | SystemConfiguration/BondConfiguration.c:1524-1610 | The first phase over all active bonds; it gives up, before any request, exactly when it needs a socket and gets none. |
| `BondUpdate.SetUpPhase` | SystemConfiguration/BondConfiguration.c:1612-1792 | The second phase over all configured bonds, likewise. |
| `BondUpdate.UpdateConfiguration` | SystemConfiguration/BondConfiguration.c:1500-1801 | The whole update issues the planned requests, and returns success if and only if each was granted or was a mode setting. |
| `BondUpdate.NeedsSocketIff` | SystemConfiguration/BondConfiguration.c:1538-1661 | A socket is needed exactly when the configured and the active bonds are not the same ones. |
| `BondReconcile.UpdateIsSafe` | SystemConfiguration/BondConfiguration.c:1524-1792 | With exclusive configured lists and a faithful snapshot, every request is one an exclusive kernel can grant, unless an earlier one failed: removes name members, adds name interfaces in no bond, creates name absent bonds. |
| `BondSafety.UpdateIsSound` | SystemConfiguration/BondConfiguration.c:1524-1792 | Whatever failed before, creations, destructions, removals and mode settings are legal when requested, and members are added only to bonds that exist. |
| `BondReconcile.UpdateConverges` | SystemConfiguration/BondConfiguration.c:1500-1801 | If nothing but mode settings failed, the kernel holds exactly the configured bonds, each with the member list the plan ends in. |
| `BondReconcile.FinalIsConfigured` | SystemConfiguration/BondConfiguration.c:1722-1728 | That list is the configured one, up to order, if and only if each configured member can be bonded or stays in the bond throughout. |
| `BondReconcile.UnsupportedIsLeftOut` | SystemConfiguration/BondConfiguration.c:1722-1728 | An update that reports success leaves a configured member out of the new bond when it does not support bonding. |
| `BondReconcile.FinalStartsAsConfigured` | SystemConfiguration/BondConfiguration.c:1676-1705 | The configured first member comes first whenever it can be bonded. |
| `BondReconcile.FinalInOrder` | SystemConfiguration/BondConfiguration.c:1676-1739 | A new or reset bond has its members in the configured order; another one has those that stay in their old order, then the new ones in the configured order. |
| `BondReconcile.UpdateReachesConfiguration` | SystemConfiguration/BondConfiguration.c:1500-1801 | With all members bondable, a successful update leaves the kernel with exactly the configured bonds, members and first members. |
| `BondSteps.UpdateIsMinimal` | SystemConfiguration/BondConfiguration.c:1558-1743 | Every request has a reason in the two configurations, written out: a member configured and present is removed, and added again, only if the first configured member is another one than the first active one. |
| `BondSteps.UpdateSetsModes` | SystemConfiguration/BondConfiguration.c:1651-1671 | If every request was granted, every configured bond has its configured mode. |
| `BondSteps.UpdateIsIdempotent` | SystemConfiguration/BondConfiguration.c:1500-1801 | After an update whose every request was granted, a second one from a fresh snapshot issues no request if and only if no configured bond is unsettled: first member not bondable and not the bond's first before, another one bondable. |
| `BondSteps.UnsettledForever` | SystemConfiguration/BondConfiguration.c:1676-1739 | A bond of y, configured as x and y with x not bondable: an update removes y and adds it again, and leaves the same bond for the next. |
| `BondPrefs.Prefs.Create` | SystemConfiguration/BondConfiguration.c:502-568 | Creation terminates and takes the first unused bond name, or stores nothing if the store refuses. |
| `BondPrefs.FirstUnused` | SystemConfiguration/BondConfiguration.c:516-539 | The number taken is the smallest unused one and at most the number of stored bonds. |
| `BondPrefs.BondNameInjective` | SystemConfiguration/BondConfiguration.c:526 | Different numbers give different bond names. |
| `BondPrefs.BondNameReads` | SystemConfiguration/BondConfiguration.c:526 | The name of bond n is "bond" and n in decimal, without leading zeros. |
| `BondPrefs.Prefs.Remove` | SystemConfiguration/BondConfiguration.c:571-600 | Removal drops the bond from the store, if it is stored and the store allows it. |
| `BondPrefs.Prefs.CollectMembers` | SystemConfiguration/BondConfiguration.c:291-320 | The collected set is that of all members of all stored bonds. |
| `BondPrefs.Prefs.CopyAvailable` | SystemConfiguration/BondConfiguration.c:323-398 | Available are exactly the interfaces that support bonding and are in no bond, bridge or VLAN. |
| `BondPrefs.Handle.StoreMembers` | SystemConfiguration/BondConfiguration.c:631-702 | Stored list and handle's list change together or not at all. |
| `BondPrefs.Handle.SetMembers` | SystemConfiguration/BondConfiguration.c:705-783 | Accepted if and only if every member is current, or available and in no service, and the store takes the change; a refused call changes neither the stored list nor the handle's. |
| `BondPrefs.Handle.SetMembersInSync` | SystemConfiguration/BondConfiguration.c:705-783 | Through an up-to-date handle the call is the edit the run theorem is about, and the handle stays up to date. |
| `BondPrefs.SetKeepsDisjoint` | SystemConfiguration/BondConfiguration.c:743-747 | An accepted call keeps bonds disjoint if and only if no requested member that the handle lists is stored in another bond. |
| `BondPrefs.StaleHandleBreaksDisjointness` | SystemConfiguration/BondConfiguration.c:743-747 | A concrete stale handle puts one interface into two bonds. |
| `BondPrefs.EditsKeepDisjoint` | SystemConfiguration/BondConfiguration.c:502-783 | No run of create, remove and set-members through up-to-date handles stores an interface in two bonds. |
| `BondPrefs.EditsKeepFit` | SystemConfiguration/BondConfiguration.c:502-783 | What holds, at each edit, of all interfaces that support bonding and are in no bridge, VLAN or service, holds of all stored members after any run of edits. |
| `BondPrefs.SetKeepsNoDuplicates` | SystemConfiguration/BondConfiguration.c:738-770 | Stored lists stay free of duplicates if and only if the requested list is. |
| `BondPrefs.DuplicatesAreAccepted` | SystemConfiguration/BondConfiguration.c:738-770 | Setting a list that names a free interface twice is accepted and stores it twice. |
| `BondPrefs.StoreIsExclusive` | SystemConfiguration/BondConfiguration.c:1516-1518 | Disjoint stored lists without duplicates meet what the bond update assumes of its configuration. |
| `DnsLayout.Holds32` | libsystem_configuration/dnsinfo_internal.h:332 | Reading a 32-bit number in network order undoes writing it. |
| `DnsLayout.AttrsLaid` | libsystem_configuration/dnsinfo_internal.h:374-424 | Attributes read by their lengths follow each other without overlap. |
| `DnsLayout.PtrsOfConcat` | libsystem_configuration/dnsinfo_internal.h:164-211 | The pointers taken from a series of attributes are those of its parts, in order. |
| `DnsDocumented.DocumentedNumbers` | libsystem_configuration/dnsinfo_private.h:60-179 | Attribute types, sizes and the order of the configuration's fields are the documented ones. |
| `DnsDocumented.NetworkOrder` | libsystem_configuration/dnsinfo_internal.h:343-344 | Numbers come with their most significant byte first. |
| `DnsDocumented.ExpandableIff` | libsystem_configuration/dnsinfo_internal.h:68-443 | A buffer can be expanded exactly when every resolver has the size it states and as many nameservers, search domains and sort addresses as it states, the resolvers of each type are as many as stated, and the padding has eight bytes for each of all these. |
| `DnsBuffer.Buffer.AddList` | libsystem_configuration/dnsinfo_internal.h:48-62 | A list is claimed if and only if its size, computed in 32 bits, is left; an empty one is NULL; padding advances by the size. |
| `DnsBuffer.Buffer.ClaimLists` | libsystem_configuration/dnsinfo_internal.h:85-125 | Three lists in a row are claimed if and only if their sum is left, each right after the one before. |
| `DnsBuffer.Buffer.PutSlot` | libsystem_configuration/dnsinfo_internal.h:181 | Storing a pointer in a list rewrites the eight bytes of its slot, as far as they are in the buffer, and nothing else. |
| `DnsBuffer.Buffer.SetPointer` | libsystem_configuration/dnsinfo_internal.h:174 | Setting a pointer field of a resolver rewrites the bytes of that field only. |
| `DnsBuffer.Buffer.StoreAttribute` | libsystem_configuration/dnsinfo_internal.h:167-207 | Each attribute type sets its own field or next list slot, or fails for want of a list; unknown types change nothing. |
| `DnsBuffer.Buffer.RewriteResolver` | libsystem_configuration/dnsinfo_internal.h:80-153 | The fields of a resolver are rewritten in host order, domain and options reset, list pointers set; `cid`, `if_name`, the attribute size and all other bytes stay. |
| `DnsBuffer.Buffer.ReadAttributes` | libsystem_configuration/dnsinfo_internal.h:164-211 | The attribute loop, reading heads from the memory that it rewrites, terminates, stops at the first attribute without a list, and leaves fields, counts and slots, and no others, as the function about which the theorems are. |
| `DnsResolver.ResolveSucceeds` | libsystem_configuration/dnsinfo_internal.h:155-224 | A resolver is expanded if and only if its three counts are those of its attributes and its lists fit the padding left. |
| `DnsResolver.ResolveExpands` | libsystem_configuration/dnsinfo_internal.h:68-224 | An expanded resolver has its fields and slots right, its lists right where the padding began, and every slot that is new is one of its own lists. |
| `DnsResolver.LoopStores` | libsystem_configuration/dnsinfo_internal.h:172-195 | Of the attributes gone through, every pointer is stored in a slot of its own list if and only if no list was given more than was claimed for it. |
| `DnsResolver.ResolveConfined` | libsystem_configuration/dnsinfo_internal.h:68-224 | Unless a list is given too many entries, no slot outside the claimed padding is added or changed, whether the expansion of the resolver succeeds or fails. |
| `DnsBuffer.Buffer.ExpandResolver` | libsystem_configuration/dnsinfo_internal.h:68-224 | A resolver is expanded if and only if it is consistent and its lists fit the padding; then all its fields and slots are right, every other slot is as before, and no slot appeared outside its lists. |
| `DnsSlots.StepLists` | libsystem_configuration/dnsinfo_internal.h:172-195 | A step within the counts writes the next slot of its own list; outside the resolver's lists no slot changes or appears. |
| `DnsClient.ResolverIsSeen` | libsystem_configuration/dnsinfo_internal.h:68-224 | In a memory with a resolver's rewritten fields and slots, a client that follows its pointers reads the values at the attributes of the resolver, in order, from the bytes as they then are. |
| `DnsBuffer.Buffer.AddToList` | libsystem_configuration/dnsinfo_internal.h:397-413 | An expanded resolver is entered in the list of its kind, or the entry fails for want of that list. |
| `DnsBuffer.Buffer.ConfigTurn` | libsystem_configuration/dnsinfo_internal.h:380-423 | Expands one resolver and enters it in the list of its kind, or fails with the memory as the function ResolverTurn says. |
| `DnsBuffer.Buffer.ReadEntries` | libsystem_configuration/dnsinfo_internal.h:372-424 | The configuration's loop terminates, stops at the first resolver that cannot be expanded or entered, and leaves the memory that the theorems are about. |
| `DnsBuffer.Buffer.Expand` | libsystem_configuration/dnsinfo_internal.h:320-443 | On well-formed buffers expansion succeeds if and only if all counts are right and the padding has room for all lists at both levels; then every slot written is one of a claimed list and lies in the padding, the memory is the bytes that came with only those slots and the fields rewritten, and, unless the expansion disturbs a value, a client reads in that memory what the bytes said. On failure, too, no slot lies outside the padding unless a list has more entries than stated. |
| `DnsRegions.ExpansionOn` | libsystem_configuration/dnsinfo_internal.h:320-443 | Whatever the bytes say, and whether the expansion succeeds or fails, the resolver fields that it rewrites do not overlap and lie between the configuration's and the padding; no slot lies before the padding. |
| `DnsReadBack.AttributeBytesSame` | libsystem_configuration/dnsinfo_internal.h:164-211 | No byte of a resolver's attributes is rewritten by the expansion, neither by fields nor by slots. |
| `DnsReadBack.ReadBackIffUndisturbed` | libsystem_configuration/dnsinfo_internal.h:320-443 | For a buffer that can be expanded: wherever it is, and whatever lies beyond it, a client reads in the expanded bytes what they said, if and only if every value ends in the buffer at bytes that keep their value, and `cid` and `if_name` are set or came as NULL. |
| `DnsReadBack.ContainedIsUndisturbed` | libsystem_configuration/dnsinfo_internal.h:164-211 | Strings that end within their attributes, addresses no longer than theirs and sort addresses of at least eight bytes are not disturbed. |
| `DnsUnended.UnendedIsDisturbed` | libsystem_configuration/dnsinfo_internal.h:172-181 | A resolver whose domain lacks its NUL right before the padding: the bytes say the domain, but a client of the expanded buffer reads it if and only if the lowest byte of the resolver's address is zero. |
| `DnsExpansion.ExpansionSucceeds` | libsystem_configuration/dnsinfo_internal.h:320-443 | The expansion succeeds if and only if the buffer is expandable, and then all lists are in place and every slot is one of a claimed list. |
| `DnsExpansion.ExpansionConfined` | libsystem_configuration/dnsinfo_internal.h:320-443 | As long as no list at either level is given more entries than were claimed for it, every slot written lies in the padding, on success and on failure. |
| `DnsExpansion.EntriesStore` | libsystem_configuration/dnsinfo_internal.h:397-413 | The resolvers gone through are entered in slots of their own lists if and only if no list was given more than was claimed for it. |
| `DnsOverfull.OverfullOverruns` | libsystem_configuration/dnsinfo_internal.h:172-195 | A resolver that states one nameserver and has k of them, in a buffer with padding for what is stated, is refused after k - 1 slots from the end of the buffer on were written. |
| `DnsExpansion.FailureMeansUnfit` | libsystem_configuration/dnsinfo_internal.h:388-413 | When a turn fails, the buffer as a whole does not meet the condition. |
| `DnsLists.ListsPlaced` | libsystem_configuration/dnsinfo_internal.h:48-62 | All lists share no slot and lie in the padding: the configuration's first, then those of each resolver in a region of its own. |
| `DnsBuffer.BufferCreate` | libsystem_configuration/dnsinfo_internal.h:229-300 | A buffer is made if and only if the data have the size they state and fit the largest size with their padding; its memory is the data followed by zeros. |
| `DnsEncode.EncodedPlaced` | libsystem_configuration/dnsinfo_private.h:127-134 | Attributes encoded one after the other are read back at the places where they were put. |
| `DnsEncode.LyingResolver` | libsystem_configuration/dnsinfo_private.h:94-134 | An encoded resolver is consistent, needs the padding of its list entries, and says what it was made of. |
| `DnsEncode.DecodeUndoesEncode` | libsystem_configuration/dnsinfo_private.h:56-157 | An encoded configuration is well-formed and decodes to what was encoded, if and only if its padding has one slot for each resolver and each list entry; else to nothing. |
| `DnsRoundTrip.EveryConfigReturns` | libsystem_configuration/dnsinfo_private.h:56-157 | Every configuration, written in the documented layout with enough padding, is read back exactly. |
| `DnsDelivery.EncodedContained` | libsystem_configuration/dnsinfo_private.h:94-134 | In an encoded configuration every value ends within its attribute. |
| `DnsDelivery.Receive` | libsystem_configuration/dnsinfo_internal.h:229-443 | Creating a buffer from an encoded configuration and expanding it succeeds if and only if the padding has room, and what a client then reads in its bytes is what was encoded. |
| `DnsDelivery.Deliver` | libsystem_configuration/dnsinfo_internal.h:229-443 | Any configuration, encoded with enough padding, made into a buffer and expanded in place, is read from its bytes as it was. |
| `DnsRoundTrip.UnknownIsTransparent` | libsystem_configuration/dnsinfo_internal.h:206-207 | Two buffers that differ only in attributes of unknown types, at either level, decode alike. |
| `HelperCache.RightsAreBalanced` | SystemConfiguration/SCHelper_client.c:112-156 | In every interleaving: one thread at most in the critical section; while the lock is free, each port was looked up as often as deallocated, plus one for the cached one; no port is ever over-released. |
| `HelperCache.OnlyOwnFailureDeallocates` | SystemConfiguration/SCHelper_client.c:114-135 | A port that lookups have found at most once is deallocated only after the thread's own attempt on that very right was refused as invalid. |
| `HelperCache.ReusedNameIsDroppedUntried` | SystemConfiguration/SCHelper_client.c:132-136 | For every port a run of two threads in which lookups find it twice and a right is deallocated untried. |
| `HelperCache.OwnFailureIffFoundOnce` | SystemConfiguration/SCHelper_client.c:112-156 | For every port: in all runs, what is deallocated after at most n lookups found it was tried by the thread, if and only if n is at most 1. |
| `HelperAnswers.LoopAnswers` | SystemConfiguration/SCHelper_client.c:112-156 | In every interleaving a thread is done exactly when an attempt of its own had an outcome other than an invalid port, which it answers; it tries again only after an invalid port; it gives up exactly when a lookup of its own found no port. |
| `HelperCache.Cache.Renew` | SystemConfiguration/SCHelper_client.c:131-150 | The section under the lock does what the steps of the machine do, and yields no port exactly when its own lookup failed. |
| `ConfigStore.ReadsAsNone` | SystemConfiguration/SCNetworkConfigurationInternal.c:252-290 | An entity reads as none if and only if it says nothing but being inactive. |
| `ConfigStore.Preferences.GetValue` | SystemConfiguration/SCNetworkConfigurationInternal.c:278-290 | Reading gives the stored value, or none for an effectively empty one. |
| `ConfigStore.Preferences.SetValue` | SystemConfiguration/SCNetworkConfigurationInternal.c:293-354 | The write in all its branches: refused values, kept inactive key, no change, set, remove, refusal by the store. |
| `ConfigStore.Preferences.GetEnabled` | SystemConfiguration/SCNetworkConfigurationInternal.c:357-368 | An entity is enabled unless it is a dictionary with the inactive key. |
| `ConfigStore.Preferences.SetEnabled` | SystemConfiguration/SCNetworkConfigurationInternal.c:371-426 | The switch in all its branches. |
| `ConfigStore.Preferences.Update` | SystemConfiguration/SCNetworkConfigurationInternal.c:333-353 | The store is asked for a change only when there is one. |
| `ConfigStore.WriteEffect` | SystemConfiguration/SCNetworkConfigurationInternal.c:293-354 | A successful write leaves the body written and keeps the enabled state when asked to; a failed one changes nothing. |
| `ConfigStore.EnableEffect` | SystemConfiguration/SCNetworkConfigurationInternal.c:371-426 | A successful switch sets the enabled state and keeps the body; a failed one changes nothing. |
| `ConfigStore.WriteSucceeds` | SystemConfiguration/SCNetworkConfigurationInternal.c:293-354 | A write, removal included, succeeds exactly when it is of a dictionary or none and the store allows it or the entity says so already; the store is asked exactly when it does not. |
| `ConfigStore.EnableSucceeds` | SystemConfiguration/SCNetworkConfigurationInternal.c:371-426 | A switch succeeds exactly when the entity is not something other than a dictionary and the store allows it or the entity is in that state already. |
| `ConfigStore.RunKeepsLast` | SystemConfiguration/SCNetworkConfigurationInternal.c:293-426 | After any mix of writes and switches, failures included, the enabled state is the last one set by a switch or by a write that does not keep the inactive key, and the body is the last one written. |
| `ConfigStore.PlainWriteEnables` | SystemConfiguration/SCNetworkConfigurationInternal.c:309-329 | A write that does not keep the inactive key enables a disabled entity. |
| `InterfaceConfig.Interface.FindConfiguration` | SystemConfiguration/SCNetworkInterface.c:2791-2801 | The first row for the interface type, or none. |
| `InterfaceConfig.Interface.CopyPerInterfacePaths` | SystemConfiguration/SCNetworkInterface.c:3065-3116 | One path for each set that holds the service, in order; none when there is no such set. |
| `InterfaceConfig.SetPathsAre` | SystemConfiguration/SCNetworkInterface.c:3065-3116 | A path is among them if and only if it is that of a set which holds the service. |
| `InterfaceConfig.PerInterfaceTypes` | SystemConfiguration/SCNetworkInterface.c:216-242 | The seven interface types that have a configuration of their own in each set. |
| `InterfaceConfig.PlacesBelong` | SystemConfiguration/SCNetworkInterface.c:3065-3150 | The paths are exactly those of all sets that hold the service, for these types, and that of the service for the others. |
| `InterfaceConfig.Interface.CopyConfigurationPaths` | SystemConfiguration/SCNetworkInterface.c:3118-3150 | Exactly the paths where the configuration belongs: the service's for per-service types, those of all sets that hold it for per-interface types, none without a service. |
| `InterfaceConfig.Interface.GetConfiguration` | SystemConfiguration/SCNetworkInterface.c:5265-5298 | Reading goes to the first path, or to the configurations held back. |
| `InterfaceConfig.ReadFromFirst` | SystemConfiguration/SCNetworkInterface.c:5265-5298 | What is read is the entity of the service, or that of the first set that holds the service, or without such a place what is held back. |
| `InterfaceConfig.Interface.WritePaths` | SystemConfiguration/SCNetworkInterface.c:5749-5758 | The same configuration is written path by path until a write fails. |
| `InterfaceConfig.Interface.SetConfiguration` | SystemConfiguration/SCNetworkInterface.c:5719-5793 | Writing goes to all paths and then releases what was held back, or is held back where allowed, or fails; on success every path where the configuration belongs reads as it, and no other path ever changes. |
| `InterfaceConfig.SavedEverywhere` | SystemConfiguration/SCNetworkInterface.c:5719-5793 | A successful write reaches every set that holds the service (or the service), and what was held back is dropped; no other path changes; where there is no such place it is held back, and succeeds, exactly if it may be. |
| `InterfaceConfig.SaveSucceeds` | SystemConfiguration/SCNetworkInterface.c:5749-5758 | With a place, and a store that allows every change, a write succeeds exactly when it is of a dictionary or none. |
| `InterfaceConfig.WriteAllEffect` | SystemConfiguration/SCNetworkInterface.c:5749-5758 | On success every path holds the configuration; on failure exactly a first part of them does; nothing else changes. |
| `InterfaceConfig.ReadAfterWrite` | SystemConfiguration/SCNetworkInterface.c:5719-5793 | After a successful write, reading gives the configuration back: normalised from every path it went to; from the held ones as written, which is normalised if and only if it is neither a value other than a dictionary nor a dictionary of only the inactive key. |
| `InterfaceConfig.WriteFrame` | SystemConfiguration/SCNetworkInterface.c:5719-5793 | A write concerns its own entity and paths only; a failed one leaves what is held back alone. |
| `InterfaceConfig.HeldThenSaved` | SystemConfiguration/SCNetworkInterface.c:5719-5793 | Held back and then saved, a configuration reads as before if and only if it is a normal one in that sense. |
| `InterfaceConfig.HeldIsNotNormalised` | SystemConfiguration/SCNetworkInterface.c:5285-5295 | Set and read back: a dictionary of only the inactive key, and a value that is no dictionary, read as themselves while held back; the first reads as none once saved, the second cannot be saved. |
| `PrefsSchedule.Session.Add` | SystemConfiguration/SCPOpen.c:706-736 | A session is created for the first user only, and counted unless that fails. |
| `PrefsSchedule.Session.Remove` | SystemConfiguration/SCPOpen.c:739-754 | The last user's leaving closes the session. |
| `PrefsSchedule.Session.Begin` | SystemConfiguration/SCPOpen.c:874-914 | Becoming scheduled, with a failure at each step; the check after adding a session holds. |
| `PrefsSchedule.Session.ScheduleOn` | SystemConfiguration/SCPOpen.c:857-945 | Scheduling on a run loop or a queue, in all its branches. |
| `PrefsSchedule.LoopScheduled` | SystemConfiguration/SCPOpen.c:866-936 | Scheduling on a run loop succeeds exactly when there is no dispatch queue and something is scheduled already or session, keys and source can be had; it adds that entry and registers the source there; a failure moves nothing. |
| `PrefsSchedule.QueueScheduled` | SystemConfiguration/SCPOpen.c:866-919 | Scheduling on a queue succeeds exactly when nothing is scheduled and session, keys and queue can be had; a failure moves nothing. |
| `PrefsSchedule.Unscheduled` | SystemConfiguration/SCPOpen.c:957-1020 | Unscheduling succeeds exactly when there is such an entry, or a queue; it takes one entry away, and the last one closes the session. |
| `PrefsSchedule.Session.UnscheduleFrom` | SystemConfiguration/SCPOpen.c:948-1027 | Unscheduling from a run loop or the queue, in all its branches. |
| `PrefsSchedule.RunSound` | SystemConfiguration/SCPOpen.c:706-1027 | In every run: session present iff its count is positive, at most one; scheduled implies a session; queue excludes source; source registered exactly where the list has an entry. |
| `PrefsSchedule.RegisteredWhereScheduled` | SystemConfiguration/SCPOpen.c:857-1027 | In every run the source is registered exactly where more schedulings than unschedulings succeeded. |
| `PrefsSchedule.UnscheduleUndoes` | SystemConfiguration/SCPOpen.c:857-1027 | A first scheduling that succeeds is undone completely by the matching unscheduling. |
| `PrefsSchedule.LeftOver` | SystemConfiguration/SCPOpen.c:878-910 | A session is left without being scheduled exactly when a scheduling failed between adding it and the source. |
| `ReachabilityFlags.TryAppend` | SystemConfiguration/SCNetworkReachabilityLogging.h:68-72 | One conditional append: the name goes in and its bit is taken off if the bit is set and the name fits, else nothing changes. |
| `ReachabilityFlags.FlagsString` | SystemConfiguration/SCNetworkReachabilityLogging.h:42-145 | The buffer ends up holding the text the theorems are about, with its terminator in bounds. |
| `ReachabilityFlags.NothingIsLost` | SystemConfiguration/SCNetworkReachabilityLogging.h:68-142 | For flags that are not zero, each name given, once, is that of a set bit, the number in hexadecimal is the flags with exactly these bits cleared, and the text fits. |
| `ReachabilityNames.NamedIffFits` | SystemConfiguration/SCNetworkReachabilityLogging.h:68-132 | A flag of the table is named exactly when it is set and its name fits behind those named before it, in the order of the table; all names are dropped exactly when other flags remain and their number would not fit. |
| `ReachabilityNames.LargeBufferNamesAll` | SystemConfiguration/SCNetworkReachabilityLogging.h:68-132 | With 256 characters or more every set flag of the table is named, and the number is of the other flags only. |
| `ReachabilityFlags.HexReadsBack` | SystemConfiguration/SCNetworkReachabilityLogging.h:132 | Read as a number, the hexadecimal digits have just the bits of the flags. |
| `ReachabilityFlags.HexInjective` | SystemConfiguration/SCNetworkReachabilityLogging.h:132 | Flags with the same hexadecimal digits are the same. |
| `ReachabilityReading.TextDeterminesFlags` | SystemConfiguration/SCNetworkReachabilityLogging.h:42-145 | Different flags have different texts, in each mode, whatever the platforms and the sizes of the two buffers. |
| `ReachabilityFlags.NoFlags` | SystemConfiguration/SCNetworkReachabilityLogging.h:49-66 | For no flags the text is as documented if and only if debug mode is off or the buffer has at least 29 characters. |

## Left out

- Memory allocation failure, logging, reference counts, descriptions and localisation.
- `nwi_state_make_copy`, VPN server addresses, signatures, SHA-256 hashes: copies of bytes without a property of their own.
- 32-bit overflow of record counts, offsets and generations: counts are unbounded numbers in the model.
- The interface list is a field of its own instead of the tail of the same allocation; its bound is proved.
- StateUpdates.UpdateGenerations: takes what the two asserts check as its precondition; Generations.AssertsNeverFail proves it for differences of the two states themselves.
- StateRuns.RunLinked: excludes runs that add after clearing one family alone, for which links do break (StateModel.ClearOneLinked).
- Equality of network interfaces is equality of their BSD names; bonds of the snapshot that are busy, and failures to read the snapshot, are not modelled.
- BondReconcile.UpdateConverges: the kernel's table is only changed by the update itself while it runs.
- Bond options, display names and status; values in the preferences that are not lists of names.
- dnsinfo.h is not part of this model: the field order of a resolver, and thereby its offsets, are the model's own, in the documented layout of the configuration around it.
- DnsBuffer.Buffer.Expand: takes well-formed attribute lengths as its precondition (at least 8, not past the end), since the loops do not check them, and a buffer that was not expanded before. Slots past the end of the buffer are recorded, so that they show, but what they would overwrite in other memory is not modelled, nor are the fields rewritten before a list could not be claimed.
- DnsDelivery.Receive: what a client would read past the end of the buffer is a parameter, for every value of which the result is the same; the host keeps the lowest byte of a number first, and pointers have eight bytes.
- DnsBuffer.BufferCreate: models the release build, in which the size checks return NULL instead of aborting; the address at which the buffer is allocated is a parameter.
- The meaning of socket address bytes beyond their length byte.
- HelperCache.RightsAreBalanced: the authorization message after the port was opened, and closing the port, are not part of the machine; a thread's loop has no bound of its own, as in the source.
- InterfaceConfig.Interface.SetConfiguration: the default configuration type, and which sets and services there are, are given and do not change during the call; links between preferences paths are not followed.
- InterfaceConfig.Interface.FindConfiguration: interface types are symbols instead of strings.
- PrefsSchedule.Session.ScheduleOn: other users of the dynamic store session are not modelled, and the list functions of the run loop support (not in the repository) are taken to keep one entry for each scheduling.
- ReachabilityFlags.FlagsString: a flag word is the set of its bits, below 32; the nine consecutive conditionals are one loop over a table; the bit numbers are those of the public header, which is not part of this model.
