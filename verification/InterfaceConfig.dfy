/**
 The configuration of an interface: kept in one entity of its service, in one entity for each set that
 holds the service, or held back while there is no such place.
 */
module InterfaceConfig {
  import opened Options
  import opened ConfigStore

  datatype InterfaceType =
    | SixToFour | Bluetooth | Bond | Bridge | Ethernet | FireWire | IEEE80211 | IPSec | L2TP | Modem | PPP | PPTP | Serial
    | VLAN | VPN | WWAN | Loopback | IPv4 | Unlisted(name: string)

  /** The known interface types, with whether each has per-interface configurations. */
  const CONFIGURATIONS: seq<(InterfaceType, bool)> :=
    [(SixToFour, false), (Bluetooth, false), (Bond, true), (Bridge, true), (Ethernet, true), (FireWire, true), (IEEE80211, true),
     (IPSec, false), (L2TP, false), (Modem, false), (PPP, false), (PPTP, false), (Serial, false), (VLAN, true), (VPN, false),
     (WWAN, false), (Loopback, true), (IPv4, false)]

  /** A network set, with the services in it. */
  datatype NetworkSet = NetworkSet(id: string, services: seq<string>)

  // ----- where a configuration is kept

  ghost predicate PerInterface(t: InterfaceType) {
    (t, true) in CONFIGURATIONS
  }

  /** The entities of the interface in the sets that hold its service, in order. */
  function SetPaths(sets: seq<NetworkSet>, service: string, device: string, entity: string): seq<Path> {
    if sets == [] then []
    else
      var n := |sets| - 1;
      var ps := SetPaths(sets[..n], service, device, entity);
      if service in sets[n].services then ps + [SetEntity(sets[n].id, device, entity)] else ps
  }

  /** None when there is nowhere to keep it. */
  ghost function Places(t: InterfaceType, service: Option<string>, device: string, sets: seq<NetworkSet>, entity: string):
      Option<seq<Path>> {
    if !PerInterface(t) then Some([ServiceEntity(service, entity)])
    else if service == None then None
    else
      var ps := SetPaths(sets, service.value, device, entity);
      if ps == [] then None else Some(ps)
  }

  lemma {:induction false} SetPathsAre(sets: seq<NetworkSet>, service: string, device: string, entity: string, p: Path)
    ensures p in SetPaths(sets, service, device, entity)
        <==> exists i :: 0 <= i < |sets| && service in sets[i].services && p == SetEntity(sets[i].id, device, entity)
  {
    if sets != [] {
      var n := |sets| - 1;
      SetPathsAre(sets[..n], service, device, entity, p);
      if p in SetPaths(sets[..n], service, device, entity) {
        var i :| 0 <= i < n && service in sets[..n][i].services && p == SetEntity(sets[..n][i].id, device, entity);
        assert service in sets[i].services && p == SetEntity(sets[i].id, device, entity);
      }
      if i :| 0 <= i < |sets| && service in sets[i].services && p == SetEntity(sets[i].id, device, entity) {
        if i < n { assert service in sets[..n][i].services && p == SetEntity(sets[..n][i].id, device, entity); }
      }
    }
  }

  /** The interface types that have a configuration in each set. */
  lemma PerInterfaceTypes(t: InterfaceType)
    ensures PerInterface(t) <==> t in {Bond, Bridge, Ethernet, FireWire, IEEE80211, VLAN, Loopback}
  {
    var table := CONFIGURATIONS;
    assert table[2] == (Bond, true) && table[3] == (Bridge, true) && table[4] == (Ethernet, true) && table[5] == (FireWire, true);
    assert table[6] == (IEEE80211, true) && table[13] == (VLAN, true) && table[16] == (Loopback, true);
  }

  /** The path is one where the configuration belongs: in every set that holds the service, or in the service. */
  ghost predicate Belongs(t: InterfaceType, service: Option<string>, device: string, sets: seq<NetworkSet>, entity: string, p: Path) {
    if PerInterface(t) then
      service.Some? && exists i :: 0 <= i < |sets| && service.value in sets[i].services && p == SetEntity(sets[i].id, device, entity)
    else p == ServiceEntity(service, entity)
  }

  lemma PlacesBelong(t: InterfaceType, service: Option<string>, device: string, sets: seq<NetworkSet>, entity: string)
    ensures var places := Places(t, service, device, sets, entity);
            && (forall p :: Belongs(t, service, device, sets, entity, p) <==> places.Some? && p in places.value)
            && (places.Some? ==> places.value != [])
  {
    if PerInterface(t) && service.Some? {
      forall p ensures p in SetPaths(sets, service.value, device, entity) <==> Belongs(t, service, device, sets, entity, p) {
        SetPathsAre(sets, service.value, device, entity, p);
      }
    }
  }

  /** The first of the paths is in the first set that holds the service. */
  lemma {:induction false} FirstSetPath(sets: seq<NetworkSet>, service: string, device: string, entity: string, i: nat)
    requires i < |sets| && service in sets[i].services && forall k :: 0 <= k < i ==> service !in sets[k].services
    ensures var ps := SetPaths(sets, service, device, entity); ps != [] && ps[0] == SetEntity(sets[i].id, device, entity)
  {
    var n := |sets| - 1;
    if i < n { FirstSetPath(sets[..n], service, device, entity, i); }
    else { NoSetPath(sets[..n], service, device, entity); }
  }

  lemma {:induction false} NoSetPath(sets: seq<NetworkSet>, service: string, device: string, entity: string)
    requires forall k :: 0 <= k < |sets| ==> service !in sets[k].services
    ensures SetPaths(sets, service, device, entity) == []
  {
    if sets != [] { NoSetPath(sets[..|sets| - 1], service, device, entity); }
  }

  // ----- writing and reading

  /** Held configurations, by entity; none inside stands for one that is cleared. */
  type Held = map<string, Option<Value>>

  /** The store, the configurations held back, and how many changes the store was asked for. */
  datatype World = World(store: Store, unsaved: Option<Held>, asked: nat)

  /** An empty dictionary is no configuration. */
  function Tidy(config: Option<Value>): Option<Value> {
    if config.Some? && config.value.Dictionary? && |config.value.dict| == 0 then None else config
  }

  /** The same configuration is written to one path after the other, until one write fails. */
  function WriteAll(store: Store, asked: nat, paths: seq<Path>, config: Option<Value>, allows: nat -> bool): (bool, Store, nat) {
    if paths == [] then (true, store, asked)
    else
      var n := |paths| - 1;
      var (ok, s, k) := WriteAll(store, asked, paths[..n], config, allows);
      if !ok then (false, s, k)
      else
        var r := Apply(At(s, paths[n]), Write(config, false), allows(k));
        (r.ok, Put(s, paths[n], r.value), k + if r.asked then 1 else 0)
  }

  function Release(unsaved: Option<Held>, entity: string): Option<Held> {
    if unsaved.None? || |unsaved.value - {entity}| == 0 then None else Some(unsaved.value - {entity})
  }

  function Hold(unsaved: Option<Held>, entity: string, config: Option<Value>): Option<Held> {
    Some((if unsaved.Some? then unsaved.value else map[])[entity := config])
  }

  function Set(w: World, places: Option<seq<Path>>, entity: string, config: Option<Value>, okToHold: bool, allows: nat -> bool):
      (bool, World) {
    match places
    case Some(paths) =>
      var (ok, store, asked) := WriteAll(w.store, w.asked, paths, Tidy(config), allows);
      (ok && paths != [], World(store, if ok && paths != [] then Release(w.unsaved, entity) else w.unsaved, asked))
    case None =>
      if okToHold then (true, w.(unsaved := Hold(w.unsaved, entity, Tidy(config)))) else (false, w)
  }

  function Get(w: World, places: Option<seq<Path>>, entity: string): Option<Value> {
    var config :=
      match places
      case Some(paths) => if paths == [] then None else Reading(At(w.store, paths[0]))
      case None => if w.unsaved.Some? && entity in w.unsaved.value then w.unsaved.value[entity] else None;
    Tidy(config)
  }

  lemma {:induction false} WriteAllEffect(store: Store, asked: nat, paths: seq<Path>, config: Option<Value>, allows: nat -> bool)
    ensures var (ok, s, _) := WriteAll(store, asked, paths, config, allows);
            if ok then WrittenUpTo(store, s, paths, config, |paths|) else exists k :: 0 <= k < |paths| && WrittenUpTo(store, s, paths, config, k)
  {
    if paths != [] {
      var n := |paths| - 1;
      var (ok, s, k) := WriteAll(store, asked, paths[..n], config, allows);
      WriteAllEffect(store, asked, paths[..n], config, allows);
      if ok {
        assert paths[..n][..n] == paths[..n];
        WriteOneMore(store, s, paths, config, n, allows(k));
      } else {
        var j :| 0 <= j < n && WrittenUpTo(store, s, paths[..n], config, j);
        assert paths[..n][..j] == paths[..j];
        assert WrittenUpTo(store, s, paths, config, j);
      }
    }
  }

  lemma WriteOneMore(store: Store, s: Store, paths: seq<Path>, config: Option<Value>, n: nat, allowed: bool)
    requires n < |paths| && WrittenUpTo(store, s, paths, config, n)
    ensures var r := Apply(At(s, paths[n]), Write(config, false), allowed);
            WrittenUpTo(store, Put(s, paths[n], r.value), paths, config, if r.ok then n + 1 else n)
  {
    var r := Apply(At(s, paths[n]), Write(config, false), allowed);
    WriteEffect(At(s, paths[n]), config, false, allowed);
    if r.ok {
      assert paths[..n + 1] == paths[..n] + [paths[n]];
    } else {
      PutBack(s, paths[n]);
    }
  }

  /** The first k paths hold the configuration; everything else is as it was. */
  ghost predicate WrittenUpTo(before: Store, after: Store, paths: seq<Path>, config: Option<Value>, k: nat)
    requires k <= |paths|
  {
    && (forall p :: p in paths[..k] ==> AsDict(At(after, p)) == AsDict(config))
    && (forall p :: p !in paths[..k] ==> At(after, p) == At(before, p))
  }

  /** Read alike whether saved or held back: a dictionary that says more than being inactive, an empty one, or none. */
  predicate Normal(config: Option<Value>) {
    !(config.Some? && (config.value.Plain? || (|config.value.dict| == 1 && INACTIVE in config.value.dict)))
  }

  /**
   A successful write is read back: normalised from every path it went to, and then none is held for a
   saved entity; from the held configurations as it was written, which is normalised exactly when it is
   a normal one.
   */
  lemma ReadAfterWrite(w: World, places: Option<seq<Path>>, entity: string, config: Option<Value>, okToHold: bool, allows: nat -> bool)
    requires Set(w, places, entity, config, okToHold, allows).0
    ensures var w' := Set(w, places, entity, config, okToHold, allows).1;
            && (places.Some? ==>
                  && Get(w', places, entity) == Reading(config)
                  && (forall p :: p in places.value ==> Reading(At(w'.store, p)) == Reading(config))
                  && (w'.unsaved.Some? ==> entity !in w'.unsaved.value))
            && (places.None? ==>
                  && Get(w', None, entity) == Tidy(config)
                  && (Get(w', None, entity) == Reading(config) <==> Normal(config)))
  {
    if places.Some? {
      var (ok, s, k) := WriteAll(w.store, w.asked, places.value, Tidy(config), allows);
      WriteAllEffect(w.store, w.asked, places.value, Tidy(config), allows);
      forall p | p in places.value ensures Reading(At(s, p)) == Reading(config) {
        assert places.value[..|places.value|] == places.value;
        assert AsDict(At(s, p)) == AsDict(Tidy(config));
      }
      assert places.value[0] in places.value;
    }
  }

  /**
   A successful write reaches every path where the configuration belongs, in all sets that hold the service,
   and no other path changes, whether it succeeds or not. Where it belongs nowhere it is held back if it may be.
   */
  lemma SavedEverywhere(w: World, t: InterfaceType, service: Option<string>, device: string, sets: seq<NetworkSet>, entity: string,
                        config: Option<Value>, okToHold: bool, allows: nat -> bool)
    ensures var (ok, w') := Set(w, Places(t, service, device, sets, entity), entity, config, okToHold, allows);
            && (forall p :: Belongs(t, service, device, sets, entity, p) ==>
                  && (ok ==> Reading(At(w'.store, p)) == Reading(config) && (w'.unsaved.Some? ==> entity !in w'.unsaved.value))
                  && (!ok ==> w'.unsaved == w.unsaved))
            && (forall p :: !Belongs(t, service, device, sets, entity, p) ==> At(w'.store, p) == At(w.store, p))
            && ((forall p :: !Belongs(t, service, device, sets, entity, p)) ==>
                  && (ok <==> okToHold)
                  && (ok ==> w'.unsaved.Some? && entity in w'.unsaved.value && w'.unsaved.value[entity] == Tidy(config)))
  {
    var places := Places(t, service, device, sets, entity);
    PlacesBelong(t, service, device, sets, entity);
    WriteFrame(w, places, entity, config, okToHold, allows);
    if Set(w, places, entity, config, okToHold, allows).0 { ReadAfterWrite(w, places, entity, config, okToHold, allows); }
    if places.Some? { assert Belongs(t, service, device, sets, entity, places.value[0]); }
  }

  /** What is read is the configuration of the service, or of the first set that holds the service, or what is held back. */
  lemma ReadFromFirst(w: World, t: InterfaceType, service: Option<string>, device: string, sets: seq<NetworkSet>, entity: string)
    ensures var read := Get(w, Places(t, service, device, sets, entity), entity);
            && (!PerInterface(t) ==> read == Reading(At(w.store, ServiceEntity(service, entity))))
            && (PerInterface(t) && service.Some? ==>
                  forall i :: 0 <= i < |sets| && service.value in sets[i].services && (forall k :: 0 <= k < i ==> service.value !in sets[k].services)
                              ==> read == Reading(At(w.store, SetEntity(sets[i].id, device, entity))))
            && ((forall p :: !Belongs(t, service, device, sets, entity, p)) ==>
                  read == Tidy(if w.unsaved.Some? && entity in w.unsaved.value then w.unsaved.value[entity] else None))
  {
    var places := Places(t, service, device, sets, entity);
    PlacesBelong(t, service, device, sets, entity);
    if places.Some? { assert Belongs(t, service, device, sets, entity, places.value[0]); }
    if PerInterface(t) && service.Some? {
      forall i | 0 <= i < |sets| && service.value in sets[i].services && (forall k :: 0 <= k < i ==> service.value !in sets[k].services)
        ensures places.Some? && places.value[0] == SetEntity(sets[i].id, device, entity)
      {
        FirstSetPath(sets, service.value, device, entity, i);
      }
    }
  }

  /** If the store allows every change, a dictionary or none is written to all paths. */
  lemma {:induction false} AllowedIsWritten(store: Store, asked: nat, paths: seq<Path>, config: Option<Value>, allows: nat -> bool)
    requires (forall n: nat :: allows(n)) && !(config.Some? && config.value.Plain?)
    ensures WriteAll(store, asked, paths, config, allows).0
  {
    if paths != [] {
      var n := |paths| - 1;
      AllowedIsWritten(store, asked, paths[..n], config, allows);
      var (_, s, k) := WriteAll(store, asked, paths[..n], config, allows);
      WriteSucceeds(At(s, paths[n]), config, false, allows(k));
    }
  }

  /**
   Held back and then saved as it was held, a configuration is read as before exactly when it is a
   normal one.
   */
  lemma HeldThenSaved(w: World, paths: seq<Path>, entity: string, config: Option<Value>, allows: nat -> bool)
    ensures var w' := Set(w, None, entity, config, true, allows).1;
            var held := Get(w', None, entity);
            var (ok, w'') := Set(w', Some(paths), entity, held, true, allows);
            ok ==> (Get(w'', Some(paths), entity) == held <==> Normal(config))
  {
    var w' := Set(w, None, entity, config, true, allows).1;
    var held := Get(w', None, entity);
    if Set(w', Some(paths), entity, held, true, allows).0 { ReadAfterWrite(w', Some(paths), entity, held, true, allows); }
  }

  /** A write concerns its own entity and paths only; one that fails is undone nowhere. */
  lemma WriteFrame(w: World, places: Option<seq<Path>>, entity: string, config: Option<Value>, okToHold: bool, allows: nat -> bool)
    ensures var (ok, w') := Set(w, places, entity, config, okToHold, allows);
            && (forall p :: (places.None? || p !in places.value) ==> At(w'.store, p) == At(w.store, p))
            && (forall e :: e != entity ==> Get(w', None, e) == Get(w, None, e))
            && (!ok ==> w'.unsaved == w.unsaved)
            && (!ok && places.Some? && places.value != [] ==>
                  exists k :: 0 <= k < |places.value| && WrittenUpTo(w.store, w'.store, places.value, Tidy(config), k))
  {
    if places.Some? {
      WriteAllEffect(w.store, w.asked, places.value, Tidy(config), allows);
      if w.unsaved.Some? && |w.unsaved.value - {entity}| == 0 {
        assert w.unsaved.value - {entity} == map[];
        assert forall e :: e != entity && e in w.unsaved.value ==> e in w.unsaved.value - {entity};
      }
    }
  }

  /**
   Held back, a configuration that only says being inactive is read as it is; saved, as none. A value
   that is no dictionary is read as it is, too; it cannot be saved.
   */
  lemma HeldIsNotNormalised(w: World, path: Path, entity: string, text: string, allows: nat -> bool)
    requires allows(w.asked)
    ensures var config := Some(Dictionary(map[INACTIVE := "true"]));
            && Get(Set(w, None, entity, config, true, allows).1, None, entity) == config
            && Set(w, Some([path]), entity, config, true, allows).0
            && Get(Set(w, Some([path]), entity, config, true, allows).1, Some([path]), entity) == None
    ensures var plain := Some(Plain(text));
            && Get(Set(w, None, entity, plain, true, allows).1, None, entity) == plain != Reading(plain)
            && !Set(w, Some([path]), entity, plain, true, allows).0
  {
    var config := Some(Dictionary(map[INACTIVE := "true"]));
    assert |map[INACTIVE := "true"]| == 1;
    OnePath(w.store, w.asked, path, config, allows);
    OnePath(w.store, w.asked, path, Some(Plain(text)), allows);
    ReadAfterWrite(w, Some([path]), entity, config, true, allows);
  }

  lemma OnePath(store: Store, asked: nat, path: Path, config: Option<Value>, allows: nat -> bool)
    ensures WriteAll(store, asked, [path], config, allows).0 == Apply(At(store, path), Write(config, false), allows(asked)).ok
  {
    assert [path][..0] == [];
  }

  /** Then it succeeds wherever it belongs somewhere; of a value that is no dictionary it never does. */
  lemma SaveSucceeds(w: World, t: InterfaceType, service: Option<string>, device: string, sets: seq<NetworkSet>, entity: string,
                     config: Option<Value>, okToHold: bool, allows: nat -> bool, p: Path)
    requires Belongs(t, service, device, sets, entity, p) && forall n: nat :: allows(n)
    ensures Set(w, Places(t, service, device, sets, entity), entity, config, okToHold, allows).0 <==> !(config.Some? && config.value.Plain?)
  {
    var places := Places(t, service, device, sets, entity);
    PlacesBelong(t, service, device, sets, entity);
    if config.Some? && config.value.Plain? { PlainIsRefused(w.store, w.asked, places.value, config, allows); }
    else { AllowedIsWritten(w.store, w.asked, places.value, Tidy(config), allows); }
  }

  lemma {:induction false} PlainIsRefused(store: Store, asked: nat, paths: seq<Path>, config: Option<Value>, allows: nat -> bool)
    requires paths != [] && config.Some? && config.value.Plain?
    ensures !WriteAll(store, asked, paths, config, allows).0
  {
    if |paths| > 1 { PlainIsRefused(store, asked, paths[..|paths| - 1], config, allows); }
  }

  // ----- the interface as it is written

  class Interface {
    const interfaceType: InterfaceType
    const serviceID: Option<string>
    const device: string
    const sets: seq<NetworkSet>
    const prefs: Preferences
    var unsaved: Option<Held>

    constructor (interfaceType: InterfaceType, serviceID: Option<string>, device: string, sets: seq<NetworkSet>, prefs: Preferences)
      ensures this.interfaceType == interfaceType && this.serviceID == serviceID && this.device == device && this.sets == sets
      ensures this.prefs == prefs && unsaved == None
    {
      this.interfaceType, this.serviceID, this.device, this.sets, this.prefs := interfaceType, serviceID, device, sets, prefs;
      unsaved := None;
    }

    ghost function State(): World
      reads this, prefs
    {
      World(prefs.store, unsaved, prefs.asked)
    }

    ghost function Paths(entity: string): Option<seq<Path>> {
      Places(interfaceType, serviceID, device, sets, entity)
    }

    /** The path is one where the configuration belongs. */
    ghost predicate IsPlace(entity: string, p: Path) {
      Belongs(interfaceType, serviceID, device, sets, entity, p)
    }

    /** `findConfiguration`: the first row for the type. */
    method FindConfiguration() returns (index: Option<nat>)
      ensures index.Some? <==> exists i :: 0 <= i < |CONFIGURATIONS| && CONFIGURATIONS[i].0 == interfaceType
      ensures index.Some? ==> index.value < |CONFIGURATIONS| && CONFIGURATIONS[index.value].0 == interfaceType
      ensures index.Some? ==> forall i :: 0 <= i < index.value ==> CONFIGURATIONS[i].0 != interfaceType
    {
      for i := 0 to |CONFIGURATIONS|
        invariant forall j :: 0 <= j < i ==> CONFIGURATIONS[j].0 != interfaceType
      {
        if CONFIGURATIONS[i].0 == interfaceType { return Some(i); }
      }
      return None;
    }

    method CopyPerInterfacePaths(service: string, entity: string) returns (paths: Option<seq<Path>>)
      ensures var ps := SetPaths(sets, service, device, entity);
              paths == if ps == [] then None else Some(ps)
    {
      paths := None;
      for i := 0 to |sets|
        invariant var ps := SetPaths(sets[..i], service, device, entity);
                  paths == if ps == [] then None else Some(ps)
      {
        assert sets[..i + 1][..i] == sets[..i];
        if service in sets[i].services {
          paths := Some((if paths.Some? then paths.value else []) + [SetEntity(sets[i].id, device, entity)]);
        }
      }
      assert sets[..|sets|] == sets;
    }

    method CopyConfigurationPaths(entity: string) returns (paths: Option<seq<Path>>)
      ensures paths == Paths(entity)
      ensures forall p :: IsPlace(entity, p) <==> paths.Some? && p in paths.value
    {
      PlacesBelong(interfaceType, serviceID, device, sets, entity);
      paths := None;
      var index := FindConfiguration();
      if index == None {
        paths := Some([ServiceEntity(serviceID, entity)]);
      } else if !CONFIGURATIONS[index.value].1 {
        paths := Some([ServiceEntity(serviceID, entity)]);
      } else if serviceID != None {
        paths := CopyPerInterfacePaths(serviceID.value, entity);
      }
    }

    /** `__SCNetworkInterfaceGetConfiguration` */
    method GetConfiguration(entity: string) returns (config: Option<Value>)
      ensures config == Get(State(), Paths(entity), entity)
    {
      config := None;
      var paths := CopyConfigurationPaths(entity);
      if paths != None {
        config := prefs.GetValue(paths.value[0]);
      } else if unsaved != None {
        if entity in unsaved.value { config := unsaved.value[entity]; }
      }
      if config.Some? && config.value.Dictionary? && |config.value.dict| == 0 { config := None; }
    }

    /** `__SCNetworkInterfaceSetConfiguration` */
    method SetConfiguration(entity: string, config: Option<Value>, okToHold: bool) returns (ok: bool)
      modifies this, prefs
      ensures var r := Set(old(State()), Paths(entity), entity, config, okToHold, prefs.allows);
              ok == r.0 && State() == r.1
      ensures forall p :: IsPlace(entity, p) && ok ==> Reading(At(prefs.store, p)) == Reading(config)
      ensures forall p :: !IsPlace(entity, p) ==> At(prefs.store, p) == At(old(prefs.store), p)
    {
      SavedEverywhere(State(), interfaceType, serviceID, device, sets, entity, config, okToHold, prefs.allows);
      ok := false;
      var tidy := config;
      if config.Some? && config.value.Dictionary? && |config.value.dict| == 0 { tidy := None; }
      var paths := CopyConfigurationPaths(entity);
      if paths != None {
        ok := WritePaths(paths.value, tidy);
        if ok && unsaved != None {
          unsaved := Some(unsaved.value - {entity});
          if |unsaved.value| == 0 { unsaved := None; }
        }
      } else if okToHold {
        if unsaved == None { unsaved := Some(map[]); }
        unsaved := Some(unsaved.value[entity := tidy]);
        ok := true;
      }
    }

    method WritePaths(paths: seq<Path>, config: Option<Value>) returns (ok: bool)
      requires paths != []
      modifies prefs
      ensures var (o, s, k) := WriteAll(old(prefs.store), old(prefs.asked), paths, config, prefs.allows);
              ok == o && prefs.store == s && prefs.asked == k
    {
      ok := false;
      var i := 0;
      while i < |paths|
        invariant 0 <= i <= |paths|
        invariant var (o, s, k) := WriteAll(old(prefs.store), old(prefs.asked), paths[..i], config, prefs.allows);
                  o && prefs.store == s && prefs.asked == k
        invariant i > 0 ==> ok
      {
        assert paths[..i + 1][..i] == paths[..i];
        ok := prefs.SetValue(paths[i], config, false);
        if !ok {
          StaysFailed(old(prefs.store), old(prefs.asked), paths, config, prefs.allows, i + 1);
          break;
        }
        i := i + 1;
      }
      assert paths[..|paths|] == paths;
    }
  }

  lemma {:induction false} StaysFailed(store: Store, asked: nat, paths: seq<Path>, config: Option<Value>, allows: nat -> bool, i: nat)
    requires i <= |paths| && !WriteAll(store, asked, paths[..i], config, allows).0
    ensures WriteAll(store, asked, paths, config, allows) == WriteAll(store, asked, paths[..i], config, allows)
  {
    if i < |paths| {
      assert paths[..|paths| - 1][..i] == paths[..i];
      StaysFailed(store, asked, paths[..|paths| - 1], config, allows, i);
    } else {
      assert paths[..i] == paths;
    }
  }

}
