/**
 Configuration entities in the preferences: reading and writing one path, and the inactive key by which
 an entity is disabled.
 */
module ConfigStore {
  import opened Options

  type Dict = map<string, string>

  /** A property list value: a dictionary, or something else. */
  datatype Value = Dictionary(dict: Dict) | Plain(text: string)

  /** An entity of a service, or of an interface in one set. */
  datatype Path = ServiceEntity(service: Option<string>, entity: string) | SetEntity(setID: string, device: string, entity: string)

  type Store = map<Path, Value>

  const INACTIVE := "__INACTIVE__"

  function At(store: Store, path: Path): Option<Value> {
    if path in store then Some(store[path]) else None
  }

  function Put(store: Store, path: Path, v: Option<Value>): Store {
    match v case None => store - {path} case Some(x) => store[path := x]
  }

  function AsDict(v: Option<Value>): Option<Dict> {
    if v.Some? && v.value.Dictionary? then Some(v.value.dict) else None
  }

  predicate EffectivelyEmpty(v: Option<Value>) {
    var n := if AsDict(v).Some? then |AsDict(v).value| else 0;
    n == 0 || (n == 1 && INACTIVE in AsDict(v).value)
  }

  function Reading(v: Option<Value>): Option<Value> {
    if EffectivelyEmpty(v) then None else v
  }

  predicate Enabled(v: Option<Value>) {
    AsDict(v) == None || INACTIVE !in AsDict(v).value
  }

  /** What an entity says besides being inactive. */
  function Body(v: Option<Value>): Dict {
    if AsDict(v).Some? then AsDict(v).value - {INACTIVE} else map[]
  }

  /** An entity reads as none exactly when its body is empty. */
  lemma ReadsAsNone(v: Option<Value>)
    ensures Reading(v) == None <==> Body(v) == map[]
  {
    if AsDict(v).Some? {
      var d := AsDict(v).value;
      var others := d.Keys - {INACTIVE};
      assert (d - {INACTIVE}).Keys == others && |d.Keys| == |d|;
      if INACTIVE in d {
        assert |others| == |d.Keys| - 1;
      } else {
        assert others == d.Keys;
      }
      assert others == {} <==> d - {INACTIVE} == map[];
    }
  }

  // ----- one write

  /** The dictionary that `__SCNetworkConfigurationSetValue` wants at the path; none is removal. */
  function Wanted(cur: Option<Value>, config: Option<Dict>, keepInactive: bool): Option<Dict> {
    if !keepInactive then config
    else
      var d := if config.Some? then config.value else map[];
      if !Enabled(cur) then Some(d[INACTIVE := "true"]) else Some(d - {INACTIVE})
  }

  /** The dictionary that `__setPrefsEnabled` wants at the path. */
  function Switched(cur: Option<Value>, enabled: bool): Option<Dict> {
    if AsDict(cur).Some? then
      Some(if enabled then AsDict(cur).value - {INACTIVE} else AsDict(cur).value[INACTIVE := "true"])
    else if enabled then None
    else Some(map[INACTIVE := "true"])
  }

  datatype Op = Write(config: Option<Value>, keepInactive: bool) | Enable(enabled: bool)

  /** Success, the value then at the path, and whether the store was asked to change. */
  datatype Result = Result(ok: bool, value: Option<Value>, asked: bool)

  /** The store is changed to `wanted` unless it says so already; the store may refuse. */
  function Change(cur: Option<Value>, wanted: Option<Dict>, allowed: bool): Result {
    if AsDict(cur) == wanted then Result(true, cur, false)
    else if !allowed then Result(false, cur, true)
    else Result(true, if wanted.Some? then Some(Dictionary(wanted.value)) else None, true)
  }

  function Apply(cur: Option<Value>, op: Op, allowed: bool): Result {
    match op
    case Write(config, keepInactive) =>
      if config.Some? && !config.value.Dictionary? then Result(false, cur, false)
      else Change(cur, Wanted(cur, AsDict(config), keepInactive), allowed)
    case Enable(enabled) =>
      if cur.Some? && !cur.value.Dictionary? then Result(false, cur, false)
      else Change(cur, Switched(cur, enabled), allowed)
  }

  /** Operations in turn on one path, with whether the store allows each. */
  function Run(cur: Option<Value>, ops: seq<(Op, bool)>): Option<Value> {
    if ops == [] then cur
    else
      var n := |ops| - 1;
      Apply(Run(cur, ops[..n]), ops[n].0, ops[n].1).value
  }

  /** Whether operation n succeeds. */
  predicate Succeeds(cur: Option<Value>, ops: seq<(Op, bool)>, n: nat)
    requires n < |ops|
  {
    Apply(Run(cur, ops[..n]), ops[n].0, ops[n].1).ok
  }

  /** The state that was set last: by a successful switch, or a successful write that does not keep the one there is. */
  predicate LastEnabled(cur: Option<Value>, ops: seq<(Op, bool)>) {
    if ops == [] then Enabled(cur)
    else
      var n := |ops| - 1;
      match ops[n].0
      case Enable(enabled) => if Succeeds(cur, ops, n) then enabled else LastEnabled(cur, ops[..n])
      case Write(config, keepInactive) =>
        if !keepInactive && Succeeds(cur, ops, n) then Enabled(config) else LastEnabled(cur, ops[..n])
  }

  /** The body that the last successful write gave, or the one there was. */
  function LastBody(cur: Option<Value>, ops: seq<(Op, bool)>): Dict {
    if ops == [] then Body(cur)
    else
      var n := |ops| - 1;
      if ops[n].0.Write? && Succeeds(cur, ops, n) then Body(ops[n].0.config) else LastBody(cur, ops[..n])
  }

  lemma WriteEffect(cur: Option<Value>, config: Option<Value>, keepInactive: bool, allowed: bool)
    ensures var r := Apply(cur, Write(config, keepInactive), allowed);
            && (!r.ok ==> r.value == cur)
            && (r.ok ==> Body(r.value) == Body(config) && Enabled(r.value) == if keepInactive then Enabled(cur) else Enabled(config))
            && (r.ok && !keepInactive ==> AsDict(r.value) == AsDict(config))
  {
    var r := Apply(cur, Write(config, keepInactive), allowed);
    if r.ok {
      var d := if AsDict(config).Some? then AsDict(config).value else map[];
      assert d[INACTIVE := "true"] - {INACTIVE} == d - {INACTIVE};
      assert (d - {INACTIVE}) - {INACTIVE} == d - {INACTIVE};
    }
  }

  lemma EnableEffect(cur: Option<Value>, enabled: bool, allowed: bool)
    ensures var r := Apply(cur, Enable(enabled), allowed);
            && (!r.ok ==> r.value == cur)
            && (r.ok ==> Body(r.value) == Body(cur) && Enabled(r.value) == enabled)
  {
    if AsDict(cur).Some? {
      var d := AsDict(cur).value;
      assert d[INACTIVE := "true"] - {INACTIVE} == d - {INACTIVE};
      assert (d - {INACTIVE}) - {INACTIVE} == d - {INACTIVE};
    }
    assert map[INACTIVE := "true"] - {INACTIVE} == map[];
  }

  /** The inactive key is there as it is written. */
  predicate Marked(d: Dict) {
    INACTIVE in d && d[INACTIVE] == "true"
  }

  /** The entity says already what the write would make it say. */
  predicate WrittenAlready(cur: Option<Value>, config: Option<Value>, keepInactive: bool) {
    if keepInactive then AsDict(cur).Some? && Body(cur) == Body(config) && (INACTIVE in AsDict(cur).value ==> Marked(AsDict(cur).value))
    else AsDict(cur) == AsDict(config)
  }

  /**
   A write, be it one that removes the entity, succeeds exactly when it is of a dictionary or none, and the
   store allows the change or need not be asked.
   */
  lemma WriteSucceeds(cur: Option<Value>, config: Option<Value>, keepInactive: bool, allowed: bool)
    ensures var r := Apply(cur, Write(config, keepInactive), allowed);
            && (r.ok <==> !(config.Some? && config.value.Plain?) && (allowed || WrittenAlready(cur, config, keepInactive)))
            && (r.asked <==> !(config.Some? && config.value.Plain?) && !WrittenAlready(cur, config, keepInactive))
  {
    if keepInactive && AsDict(cur).Some? {
      var c, d := AsDict(cur).value, if AsDict(config).Some? then AsDict(config).value else map[];
      if INACTIVE in c {
        assert d[INACTIVE := "true"] - {INACTIVE} == d - {INACTIVE};
        assert d[INACTIVE := "true"] == (d - {INACTIVE})[INACTIVE := "true"];
        if Marked(c) { assert c == (c - {INACTIVE})[INACTIVE := "true"]; }
      } else {
        assert c - {INACTIVE} == c;
      }
    }
  }

  /** A switch, likewise; the entity must not be something other than a dictionary. */
  lemma EnableSucceeds(cur: Option<Value>, enabled: bool, allowed: bool)
    ensures var r := Apply(cur, Enable(enabled), allowed);
            var already := if enabled then Enabled(cur) else AsDict(cur).Some? && Marked(AsDict(cur).value);
            && (r.ok <==> !(cur.Some? && cur.value.Plain?) && (allowed || already))
            && (r.asked <==> !(cur.Some? && cur.value.Plain?) && !already)
  {
    if AsDict(cur).Some? {
      var d := AsDict(cur).value;
      assert d - {INACTIVE} == d <==> INACTIVE !in d;
      assert d[INACTIVE := "true"] == d <==> Marked(d);
    }
  }

  /**
   After any mix of writes and switches, some of which may fail, the enabled state is the last one set
   and the body is the last one written. Only a write that keeps the inactive key leaves the state alone.
   */
  lemma {:induction false} RunKeepsLast(cur: Option<Value>, ops: seq<(Op, bool)>)
    ensures Enabled(Run(cur, ops)) == LastEnabled(cur, ops) && Body(Run(cur, ops)) == LastBody(cur, ops)
  {
    if ops != [] {
      var n := |ops| - 1;
      RunKeepsLast(cur, ops[..n]);
      match ops[n].0
      case Write(config, keepInactive) => WriteEffect(Run(cur, ops[..n]), config, keepInactive, ops[n].1);
      case Enable(enabled) => EnableEffect(Run(cur, ops[..n]), enabled, ops[n].1);
    }
  }

  /** A write that does not keep the inactive key enables a disabled entity. */
  lemma PlainWriteEnables()
    ensures var cur := Some(Dictionary(map["a" := "1", INACTIVE := "true"]));
            !Enabled(cur) && Enabled(Apply(cur, Write(Some(Dictionary(map["a" := "2"])), false), true).value)
  {
    assert "a" != INACTIVE;
  }

  // ----- the store as it is written

  /** The preferences; the n-th change asked of them is made if `allows(n)`. */
  class Preferences {
    const allows: nat -> bool
    var store: Store
    var asked: nat

    constructor (allows: nat -> bool, store: Store)
      ensures this.allows == allows && this.store == store && asked == 0
    {
      this.allows, this.store, asked := allows, store, 0;
    }

    method PathSetValue(path: Path, v: Value) returns (ok: bool)
      modifies this
      ensures ok == allows(old(asked)) && asked == old(asked) + 1
      ensures store == if ok then Put(old(store), path, Some(v)) else old(store)
    {
      ok := allows(asked);
      asked := asked + 1;
      if ok { store := store[path := v]; }
    }

    method PathRemoveValue(path: Path) returns (ok: bool, noKey: bool)
      modifies this
      ensures ok == (path in old(store) && allows(old(asked))) && asked == old(asked) + 1
      ensures noKey == (path !in old(store))
      ensures store == if ok then Put(old(store), path, None) else old(store)
    {
      noKey := path !in store;
      ok := !noKey && allows(asked);
      asked := asked + 1;
      if ok { store := store - {path}; }
    }

    /** `__SCNetworkConfigurationSetValue` */
    method SetValue(path: Path, config: Option<Value>, keepInactive: bool) returns (ok: bool)
      modifies this
      ensures var r := Apply(At(old(store), path), Write(config, keepInactive), allows(old(asked)));
              && ok == r.ok && store == Put(old(store), path, r.value)
              && asked == old(asked) + if r.asked then 1 else 0
    {
      if config.Some? && !config.value.Dictionary? {
        PutBack(store, path);
        return false;
      }
      var cur := AsDict(At(store, path));
      var newConfig := AsDict(config);
      if keepInactive {
        if config == None { newConfig := Some(map[]); }
        if cur.Some? && INACTIVE in cur.value {
          newConfig := Some(newConfig.value[INACTIVE := "true"]);
        } else {
          newConfig := Some(newConfig.value - {INACTIVE});
        }
      }
      ok := Update(path, cur, newConfig);
    }

    /** `__setPrefsEnabled` */
    method SetEnabled(path: Path, enabled: bool) returns (ok: bool)
      modifies this
      ensures var r := Apply(At(old(store), path), Enable(enabled), allows(old(asked)));
              && ok == r.ok && store == Put(old(store), path, r.value)
              && asked == old(asked) + if r.asked then 1 else 0
    {
      var newConfig: Option<Dict> := None;
      if path in store {
        if !store[path].Dictionary? {
          PutBack(store, path);
          return false;
        }
        newConfig := Some(store[path].dict);
        if enabled {
          newConfig := Some(newConfig.value - {INACTIVE});
        } else {
          newConfig := Some(newConfig.value[INACTIVE := "true"]);
        }
      } else if !enabled {
        newConfig := Some(map[INACTIVE := "true"]);
      }
      ok := Update(path, AsDict(At(store, path)), newConfig);
    }

    /** The end of both: the path is changed, or removed, if that changes anything. */
    method Update(path: Path, cur: Option<Dict>, newConfig: Option<Dict>) returns (ok: bool)
      requires cur == AsDict(At(store, path))
      modifies this
      ensures var r := Change(At(old(store), path), newConfig, allows(old(asked)));
              && ok == r.ok && store == Put(old(store), path, r.value)
              && asked == old(asked) + if r.asked then 1 else 0
    {
      PutBack(store, path);
      if cur == newConfig {
        ok := true;
      } else if newConfig.Some? {
        ok := PathSetValue(path, Dictionary(newConfig.value));
      } else {
        var noKey;
        ok, noKey := PathRemoveValue(path);
        if !ok && noKey { ok := true; }
      }
    }

    /** `__SCNetworkConfigurationGetValue` */
    method GetValue(path: Path) returns (config: Option<Value>)
      ensures config == Reading(At(store, path))
      ensures config == if Body(At(store, path)) == map[] then None else At(store, path)
    {
      ReadsAsNone(At(store, path));
      config := At(store, path);
      if EffectivelyEmpty(config) { config := None; }
    }

    /** `__getPrefsEnabled` */
    method GetEnabled(path: Path) returns (enabled: bool)
      ensures enabled == Enabled(At(store, path))
      ensures !enabled <==> path in store && store[path].Dictionary? && INACTIVE in store[path].dict
    {
      var config := At(store, path);
      enabled := !(config.Some? && config.value.Dictionary? && INACTIVE in config.value.dict);
    }
  }

  lemma PutBack(store: Store, path: Path)
    ensures Put(store, path, At(store, path)) == store
  {
  }
}
