/**
 Resolving MONITORED_CHAT_USERNAMES at startup. Each configured name is looked
 up on its own; a failed lookup is logged and skipped, and the names after it
 are still resolved. The account client's `getEntity` is the `lookup` parameter:
 `None` stands for a lookup that threw.
 */
module ChatRegistry {
  import opened Wrappers

  /** What `getEntity` returns about a chat. */
  datatype Entity = Entity(id: int, title: Option<string>, username: Option<string>)

  /** The account client's `getEntity`: the entity of a name, or `None` when it throws. */
  type Lookup = string -> Option<Entity>

  /**
   What the resolution loop builds: `chatIds` in configured order (repeats kept),
   `chatNames` from id to display name, and the names that could not be found
   (each one logged as a warning).
   */
  datatype Registry = Registry(chatIds: seq<int>, chatNames: map<int, string>, missing: seq<string>)

  /** A JavaScript-truthy optional string: present and non-empty. */
  predicate Present(s: Option<string>)
  {
    s.Some? && s.value != ""
  }

  /** `entity.title || entity.username || username`. */
  function DisplayName(e: Entity, configured: string): (r: string)
    ensures r == configured || (e.title.Some? && r == e.title.value) || (e.username.Some? && r == e.username.value)
    ensures r == "" <==> !Present(e.title) && !Present(e.username) && configured == ""
    ensures Present(e.title) ==> r == e.title.value
    ensures !Present(e.title) && Present(e.username) ==> r == e.username.value
  {
    if Present(e.title) then e.title.value
    else if Present(e.username) then e.username.value
    else configured
  }

  /** `name` resolves, through `lookup`, to the chat `id`. */
  predicate ResolvesTo(lookup: Lookup, name: string, id: int)
  {
    lookup(name).Some? && lookup(name).value.id == id
  }

  /** The ids of a registry, as a set. */
  function IdSet(reg: Registry): set<int>
  {
    set id | id in reg.chatIds
  }

  /** One iteration of the loop: record the entity, or record the name as missing. */
  function Record(reg: Registry, name: string, found: Option<Entity>): Registry
  {
    match found
    case None => reg.(missing := reg.missing + [name])
    case Some(e) => Registry(reg.chatIds + [e.id], reg.chatNames[e.id := DisplayName(e, name)], reg.missing)
  }

  /** The registry after the loop has visited every configured name in order. */
  function Resolve(names: seq<string>, lookup: Lookup): (r: Registry)
    ensures |r.chatIds| + |r.missing| == |names|
    ensures r.chatNames.Keys == IdSet(r)
    decreases |names|
  {
    if |names| == 0 then Registry([], map[], [])
    else
      var prev := Resolve(names[..|names| - 1], lookup);
      Record(prev, names[|names| - 1], lookup(names[|names| - 1]))
  }

  /** Two registries built one after the other: ids and warnings concatenate, later names win. */
  function Combine(first: Registry, second: Registry): Registry
  {
    Registry(first.chatIds + second.chatIds, first.chatNames + second.chatNames, first.missing + second.missing)
  }

  /**
   Resolution is compositional: resolving `a + b` is resolving `a`, then `b`, and
   combining. So each name is handled independently of the others.
   */
  lemma {:induction false} ResolveConcat(a: seq<string>, b: seq<string>, lookup: Lookup)
    ensures Resolve(a + b, lookup) == Combine(Resolve(a, lookup), Resolve(b, lookup))
    decreases |b|
  {
    if |b| == 0 {
      assert a + b == a;
    } else {
      var ab := a + b;
      var last := b[|b| - 1];
      assert ab[..|ab| - 1] == a + b[..|b| - 1];
      assert ab[|ab| - 1] == last;
      ResolveConcat(a, b[..|b| - 1], lookup);
      RecordAfterCombine(Resolve(a, lookup), Resolve(b[..|b| - 1], lookup), last, lookup(last));
    }
  }

  /** Recording a name after a combination records it in the second part. */
  lemma RecordAfterCombine(first: Registry, second: Registry, name: string, found: Option<Entity>)
    ensures Record(Combine(first, second), name, found) == Combine(first, Record(second, name, found))
  {
    match found
    case None =>
      assert (first.missing + second.missing) + [name] == first.missing + (second.missing + [name]);
    case Some(e) =>
      assert (first.chatIds + second.chatIds) + [e.id] == first.chatIds + (second.chatIds + [e.id]);
      assert (first.chatNames + second.chatNames)[e.id := DisplayName(e, name)]
          == first.chatNames + second.chatNames[e.id := DisplayName(e, name)];
  }

  /** A single name gives one id or one warning. */
  lemma ResolveSingle(name: string, lookup: Lookup)
    ensures lookup(name).None? ==> Resolve([name], lookup) == Registry([], map[], [name])
    ensures lookup(name).Some? ==>
              var e := lookup(name).value;
              Resolve([name], lookup) == Registry([e.id], map[e.id := DisplayName(e, name)], [])
  {
    assert [name][..0] == [];
  }

  /**
   Per-name failure isolation: a name that cannot be found only adds its warning;
   the ids and display names are those of the other names.
   */
  lemma FailingNameSkipped(a: seq<string>, name: string, b: seq<string>, lookup: Lookup)
    requires lookup(name).None?
    ensures var with := Resolve(a + [name] + b, lookup);
            var without := Resolve(a + b, lookup);
            && with.chatIds == without.chatIds
            && with.chatNames == without.chatNames
            && with.missing == Resolve(a, lookup).missing + [name] + Resolve(b, lookup).missing
  {
    ResolveConcat(a + [name], b, lookup);
    ResolveConcat(a, [name], lookup);
    ResolveConcat(a, b, lookup);
    ResolveSingle(name, lookup);
  }

  /** An id is monitored exactly when some configured name resolves to it. */
  lemma {:induction false} MonitoredIds(names: seq<string>, lookup: Lookup, id: int)
    ensures id in Resolve(names, lookup).chatIds <==> exists i :: 0 <= i < |names| && ResolvesTo(lookup, names[i], id)
    decreases |names|
  {
    if |names| > 0 {
      var init := names[..|names| - 1];
      MonitoredIds(init, lookup, id);
      assert forall i :: 0 <= i < |init| ==> init[i] == names[i];
      if ResolvesTo(lookup, names[|names| - 1], id) {
        assert id in Resolve(names, lookup).chatIds;
      }
    }
  }

  /**
   The display name kept for an id is the one of the LAST configured name that
   resolved to it, since later iterations overwrite `chatNames[chatId]`.
   */
  lemma {:induction false} DisplayNameOfLastResolution(names: seq<string>, lookup: Lookup, i: int)
    requires 0 <= i < |names| && lookup(names[i]).Some?
    requires forall j :: i < j < |names| ==> !ResolvesTo(lookup, names[j], lookup(names[i]).value.id)
    ensures var e := lookup(names[i]).value;
            e.id in Resolve(names, lookup).chatNames
            && Resolve(names, lookup).chatNames[e.id] == DisplayName(e, names[i])
    decreases |names|
  {
    var init := names[..|names| - 1];
    if i < |names| - 1 {
      assert init[i] == names[i];
      forall j | i < j < |init|
        ensures !ResolvesTo(lookup, init[j], lookup(names[i]).value.id)
      {
        assert init[j] == names[j];
      }
      DisplayNameOfLastResolution(init, lookup, i);
    }
  }

  /** The startup loop over the configured names, as the source writes it. */
  method ResolveChats(names: seq<string>, lookup: Lookup) returns (reg: Registry)
    ensures reg == Resolve(names, lookup)
  {
    reg := Registry([], map[], []);
    for i := 0 to |names|
      invariant reg == Resolve(names[..i], lookup)
    {
      assert names[..i + 1][..i] == names[..i];
      match lookup(names[i])
      case None =>
        reg := reg.(missing := reg.missing + [names[i]]);
      case Some(e) =>
        reg := reg.(chatIds := reg.chatIds + [e.id], chatNames := reg.chatNames[e.id := DisplayName(e, names[i])]);
    }
    assert names[..|names|] == names;
  }
}
