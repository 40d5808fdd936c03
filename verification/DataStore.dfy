/**
 jQuery's data cache for DOM nodes: `internalData`, `internalRemoveData`, `cleanData`, and what
 `event.add` and `event.remove` do to it.

 A node's id comes from the list of freed ids or from the counter `guid`.  An id is freed by
 `cleanData`, which may be reached a second time for the same node while it is at work: it
 removes events, removing the last event removes the "events" entry, and removing the last
 entry cleans the node.
 */
module DataStore {
  import opened Wrappers

  type Node = nat

  type Value = nat

  /**
   `jQuery.cache[ id ]`: the user's data object, the private entries by name ("handle" among
   them), and the private entry "events": for every event type the `origType`s of its handlers.
   */
  datatype Entry = Entry(
    data: Option<map<string, Value>>,
    priv: map<string, Value>,
    events: Option<map<string, seq<string>>>)

  const EMPTY := Entry(None, map[], None)

  datatype Store = Store(guid: nat, deletedIds: seq<nat>, expando: map<Node, nat>, cache: map<nat, Entry>)

  /** `isEmptyDataObject` */
  predicate IsEmptyDataObject(e: Entry)
  {
    (e.data.None? || e.data.value == map[]) && e.priv == map[] && e.events.None?
  }

  /** The name argument of `data` and `removeData`. */
  datatype Name = NoName | Key(name: string) | Keys(names: seq<string>) | Pairs(pairs: map<string, Value>)

  /** Helpers of the source that only shape names: `camelCase`, and splitting at blanks. */
  datatype Naming = Naming(camelCase: string -> string, split: string -> seq<string>)

  // ---------- the promise ----------

  predicate Live(s: Store, n: Node)
  {
    n in s.expando && s.expando[n] in s.cache
  }

  /**
   Ids of nodes are pairwise distinct and are exactly the ids in the cache; the freed ids do not
   repeat and none of them is in use; all of them were drawn from the counter.
   */
  ghost predicate Inv(s: Store)
  {
    s.guid >= 1 &&
    (forall n | n in s.expando :: s.expando[n] in s.cache) &&
    (forall id | id in s.cache :: exists n :: n in s.expando && s.expando[n] == id) &&
    (forall m, n | m in s.expando && n in s.expando && m != n :: s.expando[m] != s.expando[n]) &&
    (forall i, j | 0 <= i < j < |s.deletedIds| :: s.deletedIds[i] != s.deletedIds[j]) &&
    (forall i | 0 <= i < |s.deletedIds| :: s.deletedIds[i] !in s.cache && 1 <= s.deletedIds[i] < s.guid) &&
    (forall id | id in s.cache :: 1 <= id < s.guid)
  }

  // ---------- what each operation amounts to ----------

  /** A node without an id gets one: a freed one if there is any, else a new one. */
  function Allocate(s: Store, n: Node): Store
  {
    if n in s.expando then s
    else if s.deletedIds != [] then
      var last := |s.deletedIds| - 1;
      s.(expando := s.expando[n := s.deletedIds[last]], deletedIds := s.deletedIds[..last])
    else s.(expando := s.expando[n := s.guid], guid := s.guid + 1)
  }

  function WithEntry(s: Store, n: Node): Store
  {
    var a := Allocate(s, n);
    var id := a.expando[n];
    if id in a.cache then a else a.(cache := a.cache[id := EMPTY])
  }

  /** The node's id is freed, once. */
  function Release(s: Store, n: Node): Store
  {
    if Live(s, n) then
      var id := s.expando[n];
      s.(cache := s.cache - {id}, expando := s.expando - {n}, deletedIds := s.deletedIds + [id])
    else s
  }

  function Put(s: Store, n: Node, e: Entry): Store
    requires Live(s, n)
  {
    s.(cache := s.cache[s.expando[n] := e])
  }

  /** Store the entry, or free the id if nothing is left in it. */
  function PutOrRelease(s: Store, n: Node, e: Entry): Store
    requires Live(s, n)
  {
    if IsEmptyDataObject(e) then Release(s, n) else Put(s, n, e)
  }

  function EntryOf(s: Store, n: Node): Entry
    requires Live(s, n)
  {
    s.cache[s.expando[n]]
  }

  function DataOr(e: Entry): map<string, Value>
  {
    if e.data.Some? then e.data.value else map[]
  }

  /** What `internalData` leaves in the entry it works on. */
  function Written(naming: Naming, e: Entry, name: Name, value: Option<Value>, pvt: bool): Entry
    requires value.Some? ==> name.Key?
  {
    var paired :=
      if !name.Pairs? then e
      else if pvt then e.(priv := e.priv + name.pairs)
      else e.(data := Some(DataOr(e) + name.pairs));
    if pvt then
      if value.Some? then paired.(priv := paired.priv[naming.camelCase(name.name) := value.value]) else paired
    else
      var d := DataOr(paired);
      paired.(data := Some(if value.Some? then d[naming.camelCase(name.name) := value.value] else d))
  }

  /** `internalData`: a mere lookup on a node without data changes nothing, not even its id. */
  function AfterData(naming: Naming, s: Store, n: Node, name: Name, value: Option<Value>, pvt: bool): Store
    requires value.Some? ==> name.Key?
  {
    if (!Live(s, n) || (!pvt && EntryOf(s, n).data.None?)) && value.None? && name.Key? then s
    else
      var w := WithEntry(s, n);
      Put(w, n, Written(naming, EntryOf(w, n), name, value, pvt))
  }

  predicate Named(name: Name)
  {
    (name.Key? && name.name != "") || name.Keys?
  }

  /** The keys `internalRemoveData` deletes from an object that has the keys `present`. */
  function DoomedKeys(naming: Naming, present: set<string>, name: Name): set<string>
    requires Named(name)
  {
    match name
    case Key(k) =>
      if k in present then {k}
      else if naming.camelCase(k) in present then {naming.camelCase(k)}
      else set w | w in naming.split(naming.camelCase(k))
    case Keys(ks) => (set k | k in ks) + (set k | k in ks :: naming.camelCase(k))
  }

  function KeysOf(e: Entry): set<string>
  {
    e.priv.Keys + (if e.data.Some? then {"data"} else {}) + (if e.events.Some? then {"events"} else {})
  }

  /** Deleting keys from the entry object; "data" and "events" have fields of their own here. */
  function WithoutKeys(e: Entry, doomed: set<string>): Entry
  {
    Entry(if "data" in doomed then None else e.data,
          e.priv - (doomed - {"data", "events"}),
          if "events" in doomed then None else e.events)
  }

  function AfterRemove(naming: Naming, s: Store, n: Node, name: Name, pvt: bool): Store
  {
    if !Live(s, n) then s
    else
      var e := EntryOf(s, n);
      if pvt then
        if Named(name) then PutOrRelease(s, n, WithoutKeys(e, DoomedKeys(naming, KeysOf(e), name)))
        else Release(s, n)
      else
        var rest := if Named(name) then DataOr(e) - DoomedKeys(naming, DataOr(e).Keys, name) else map[];
        if rest != map[] then Put(s, n, e.(data := Some(rest)))
        else PutOrRelease(s, n, e.(data := None))
  }

  const HANDLE: Value := 1

  /** `event.add`: one more handler of `origType`, filed under `bound`. */
  function AfterEventAdd(s: Store, n: Node, bound: string, origType: string): Store
  {
    var w := WithEntry(s, n);
    var e := EntryOf(w, n);
    var types := if e.events.Some? then e.events.value else map[];
    var handlers := if bound in types then types[bound] else [];
    Put(w, n, e.(events := Some(types[bound := handlers + [origType]]), priv := e.priv["handle" := HANDLE]))
  }

  function Without(handlers: seq<string>, origType: string): seq<string>
  {
    if handlers == [] then []
    else (if handlers[0] == origType then [] else [handlers[0]]) + Without(handlers[1..], origType)
  }

  /** The types left after all handlers of `origType` filed under `bound` are removed. */
  function TypesLeft(types: map<string, seq<string>>, bound: string, origType: string): map<string, seq<string>>
  {
    if bound !in types then types
    else
      var left := Without(types[bound], origType);
      if types[bound] != [] && left == [] then types - {bound} else types[bound := left]
  }

  /** `special[ type ].bindType || type`; a map entry marks a special type. */
  function BoundType(special: map<string, Option<string>>, t: string): string
  {
    if t in special && special[t].Some? then special[t].value else t
  }

  /** `event.remove( elem, type )`: when no event is left, "events" and the handle go too. */
  function AfterEventRemove(special: map<string, Option<string>>, s: Store, n: Node, t: string): Store
  {
    if !Live(s, n) || EntryOf(s, n).events.None? then s
    else
      var e := EntryOf(s, n);
      var left := TypesLeft(e.events.value, BoundType(special, t), t);
      if left == map[] then PutOrRelease(s, n, e.(priv := e.priv - {"handle"}, events := None))
      else Put(s, n, e.(events := Some(left)))
  }

  /** `cleanData`: whatever events there are, the net effect is that each id is freed once. */
  function AfterClean(s: Store, ns: seq<Node>): Store
  {
    if ns == [] then s else Release(AfterClean(s, ns[..|ns| - 1]), ns[|ns| - 1])
  }

  // ---------- the invariant is kept ----------

  /** Giving an unused id to a node that has none. */
  lemma AssignKeeps(s: Store, w: Store, n: Node, id: nat)
    requires Inv(s) && n !in s.expando && id !in s.cache && 1 <= id < w.guid && s.guid <= w.guid
    requires w.expando == s.expando[n := id] && w.cache == s.cache[id := EMPTY]
    requires w.deletedIds <= s.deletedIds && forall i | 0 <= i < |w.deletedIds| :: w.deletedIds[i] != id
    ensures Inv(w) && Live(w, n)
  {
    forall i | i in w.cache
      ensures exists m :: m in w.expando && w.expando[m] == i
    {
      if i == id {
        assert n in w.expando;
      } else {
        var m :| m in s.expando && s.expando[m] == i;
        assert m in w.expando && w.expando[m] == i;
      }
    }
  }

  lemma AllocateKeeps(s: Store, n: Node)
    requires Inv(s)
    ensures Inv(WithEntry(s, n)) && Live(WithEntry(s, n), n)
    ensures forall m | m in s.expando :: m in WithEntry(s, n).expando && WithEntry(s, n).expando[m] == s.expando[m]
  {
    if n !in s.expando {
      var w := WithEntry(s, n);
      AssignKeeps(s, w, n, w.expando[n]);
    }
  }

  lemma ReleaseKeeps(s: Store, n: Node)
    requires Inv(s)
    ensures Inv(Release(s, n)) && !Live(Release(s, n), n)
  {
    if Live(s, n) {
      var r, id := Release(s, n), s.expando[n];
      forall i | i in r.cache
        ensures exists m :: m in r.expando && r.expando[m] == i
      {
        var m :| m in s.expando && s.expando[m] == i;
        assert m in r.expando && r.expando[m] == i;
      }
      forall m | m in r.expando
        ensures r.expando[m] in r.cache
      {
        assert m in s.expando && m != n && s.expando[m] != id;
      }
      forall i | 0 <= i < |r.deletedIds|
        ensures r.deletedIds[i] !in r.cache && 1 <= r.deletedIds[i] < r.guid
        ensures forall j | 0 <= j < i :: r.deletedIds[j] != r.deletedIds[i]
      {
        assert id in s.cache;
      }
    }
  }

  lemma PutKeeps(s: Store, n: Node, e: Entry)
    requires Inv(s) && Live(s, n)
    ensures Inv(Put(s, n, e))
  {
    var p := Put(s, n, e);
    forall i | i in p.cache
      ensures exists m :: m in p.expando && p.expando[m] == i
    {
      assert i in s.cache;
    }
  }

  // ---------- runs ----------

  datatype Op =
    | Data(n: Node, name: Name, value: Option<Value>, pvt: bool)
    | RemoveData(n: Node, name: Name, pvt: bool)
    | EventAdd(n: Node, bound: string, origType: string)
    | EventRemove(n: Node, t: string)
    | CleanData(ns: seq<Node>)
    | DrawGuid

  predicate Possible(op: Op)
  {
    op.Data? && op.value.Some? ==> op.name.Key?
  }

  function Step(naming: Naming, special: map<string, Option<string>>, s: Store, op: Op): Store
    requires Possible(op)
  {
    match op
    case Data(n, name, value, pvt) => AfterData(naming, s, n, name, value, pvt)
    case RemoveData(n, name, pvt) => AfterRemove(naming, s, n, name, pvt)
    case EventAdd(n, bound, origType) => AfterEventAdd(s, n, bound, origType)
    case EventRemove(n, t) => AfterEventRemove(special, s, n, t)
    case CleanData(ns) => AfterClean(s, ns)
    case DrawGuid => s.(guid := s.guid + 1)
  }

  function Run(naming: Naming, special: map<string, Option<string>>, s: Store, ops: seq<Op>): Store
    requires forall i | 0 <= i < |ops| :: Possible(ops[i])
    decreases |ops|
  {
    if ops == [] then s else Run(naming, special, Step(naming, special, s, ops[0]), ops[1..])
  }

  lemma PutOrReleaseKeeps(s: Store, n: Node, e: Entry)
    requires Inv(s) && Live(s, n)
    ensures Inv(PutOrRelease(s, n, e))
  {
    PutKeeps(s, n, e);
    ReleaseKeeps(s, n);
  }

  lemma {:induction false} CleanKeeps(s: Store, ns: seq<Node>)
    requires Inv(s)
    ensures Inv(AfterClean(s, ns))
  {
    if ns != [] {
      CleanKeeps(s, ns[..|ns| - 1]);
      ReleaseKeeps(AfterClean(s, ns[..|ns| - 1]), ns[|ns| - 1]);
    }
  }

  lemma StepKeeps(naming: Naming, special: map<string, Option<string>>, s: Store, op: Op)
    requires Inv(s) && Possible(op)
    ensures Inv(Step(naming, special, s, op))
  {
    match op
    case Data(n, name, value, pvt) =>
      AllocateKeeps(s, n);
      var w := WithEntry(s, n);
      PutKeeps(w, n, Written(naming, EntryOf(w, n), name, value, pvt));
    case RemoveData(n, name, pvt) => RemoveKeeps(naming, s, n, name, pvt);
    case EventAdd(n, bound, origType) =>
      AllocateKeeps(s, n);
      var w, r := WithEntry(s, n), AfterEventAdd(s, n, bound, origType);
      PutKeeps(w, n, EntryOf(r, n));
    case EventRemove(n, t) => EventRemoveKeeps(special, s, n, t);
    case CleanData(ns) => CleanKeeps(s, ns);
    case DrawGuid =>
  }

  lemma EventRemoveKeeps(special: map<string, Option<string>>, s: Store, n: Node, t: string)
    requires Inv(s)
    ensures Inv(AfterEventRemove(special, s, n, t))
  {
    if Live(s, n) && EntryOf(s, n).events.Some? {
      var e := EntryOf(s, n);
      PutOrReleaseKeeps(s, n, e.(priv := e.priv - {"handle"}, events := None));
      PutKeeps(s, n, e.(events := Some(TypesLeft(e.events.value, BoundType(special, t), t))));
    }
  }

  lemma RemoveKeeps(naming: Naming, s: Store, n: Node, name: Name, pvt: bool)
    requires Inv(s)
    ensures Inv(AfterRemove(naming, s, n, name, pvt))
  {
    if Live(s, n) {
      var e := EntryOf(s, n);
      ReleaseKeeps(s, n);
      PutOrReleaseKeeps(s, n, e.(data := None));
      if pvt && Named(name) {
        PutOrReleaseKeeps(s, n, WithoutKeys(e, DoomedKeys(naming, KeysOf(e), name)));
      } else if !pvt && Named(name) {
        PutKeeps(s, n, e.(data := Some(DataOr(e) - DoomedKeys(naming, DataOr(e).Keys, name))));
      }
    }
  }

  const NEW_STORE := Store(1, [], map[], map[])

  lemma {:induction false} RunKeeps(naming: Naming, special: map<string, Option<string>>, s: Store, ops: seq<Op>)
    requires Inv(s) && forall i | 0 <= i < |ops| :: Possible(ops[i])
    ensures Inv(Run(naming, special, s, ops))
    decreases |ops|
  {
    if ops != [] {
      StepKeeps(naming, special, s, ops[0]);
      RunKeeps(naming, special, Step(naming, special, s, ops[0]), ops[1..]);
    }
  }

  /**
   Main result: under every interleaving of writes, lookups, removals, event changes and
   cleanups, ids in use are distinct, freed ids do not repeat and are not in use, and every id
   lies below the counter.
   */
  lemma IdsNeverClash(naming: Naming, special: map<string, Option<string>>, ops: seq<Op>)
    requires forall i | 0 <= i < |ops| :: Possible(ops[i])
    ensures Inv(Run(naming, special, NEW_STORE, ops))
  {
    RunKeeps(naming, special, NEW_STORE, ops);
  }

  // ---------- conservation ----------

  /** The ids in use and the freed ones. */
  function Ids(s: Store): set<nat>
  {
    s.cache.Keys + (set i | 0 <= i < |s.deletedIds| :: s.deletedIds[i])
  }

  lemma ReleaseConserves(s: Store, n: Node)
    ensures Ids(Release(s, n)) == Ids(s)
  {
    if Live(s, n) {
      var r, id := Release(s, n), s.expando[n];
      assert r.deletedIds[|s.deletedIds|] == id;
      assert forall i | 0 <= i < |s.deletedIds| :: r.deletedIds[i] == s.deletedIds[i];
    }
  }

  lemma PutConserves(s: Store, n: Node, e: Entry)
    requires Live(s, n)
    ensures Ids(Put(s, n, e)) == Ids(s) && Ids(PutOrRelease(s, n, e)) == Ids(s)
  {
    ReleaseConserves(s, n);
  }

  /** Moving the last freed id to the ids in use leaves their union. */
  lemma LastMoves(used: set<nat>, freed: seq<nat>)
    requires freed != []
    ensures var last := |freed| - 1;
            var rest := freed[..last];
            used + {freed[last]} + (set i | 0 <= i < |rest| :: rest[i]) == used + (set i | 0 <= i < |freed| :: freed[i])
  {
    var last := |freed| - 1;
    var rest := freed[..last];
    forall i | 0 <= i < last
      ensures freed[i] in (set j | 0 <= j < |rest| :: rest[j])
    {
      assert rest[i] == freed[i];
    }
  }

  lemma AllocateConserves(s: Store, n: Node)
    requires Inv(s)
    ensures Live(WithEntry(s, n), n)
    ensures Ids(WithEntry(s, n)) == Ids(s) || Ids(WithEntry(s, n)) == Ids(s) + {s.guid}
  {
    if n !in s.expando {
      var w := WithEntry(s, n);
      if s.deletedIds != [] {
        var last := |s.deletedIds| - 1;
        LastMoves(s.cache.Keys, s.deletedIds);
        assert w.cache.Keys == s.cache.Keys + {s.deletedIds[last]} && w.deletedIds == s.deletedIds[..last];
      } else {
        assert w.cache.Keys == s.cache.Keys + {s.guid} && w.deletedIds == s.deletedIds;
      }
    }
  }

  lemma {:induction false} CleanConserves(s: Store, ns: seq<Node>)
    ensures Ids(AfterClean(s, ns)) == Ids(s)
  {
    if ns != [] {
      CleanConserves(s, ns[..|ns| - 1]);
      ReleaseConserves(AfterClean(s, ns[..|ns| - 1]), ns[|ns| - 1]);
    }
  }

  lemma RemoveConserves(naming: Naming, s: Store, n: Node, name: Name, pvt: bool)
    ensures Ids(AfterRemove(naming, s, n, name, pvt)) == Ids(s)
  {
    if Live(s, n) {
      var e := EntryOf(s, n);
      ReleaseConserves(s, n);
      PutConserves(s, n, e.(data := None));
      if pvt && Named(name) {
        PutConserves(s, n, WithoutKeys(e, DoomedKeys(naming, KeysOf(e), name)));
      } else if !pvt && Named(name) {
        PutConserves(s, n, e.(data := Some(DataOr(e) - DoomedKeys(naming, DataOr(e).Keys, name))));
      }
    }
  }

  lemma EventRemoveConserves(special: map<string, Option<string>>, s: Store, n: Node, t: string)
    ensures Ids(AfterEventRemove(special, s, n, t)) == Ids(s)
  {
    if Live(s, n) && EntryOf(s, n).events.Some? {
      var e := EntryOf(s, n);
      PutConserves(s, n, e.(priv := e.priv - {"handle"}, events := None));
      PutConserves(s, n, e.(events := Some(TypesLeft(e.events.value, BoundType(special, t), t))));
    }
  }

  /** No step loses an id: the pool of used and freed ids changes only by a draw from the counter. */
  lemma IdsAreConserved(naming: Naming, special: map<string, Option<string>>, s: Store, op: Op)
    requires Inv(s) && Possible(op)
    ensures var after := Ids(Step(naming, special, s, op)); after == Ids(s) || after == Ids(s) + {s.guid}
  {
    match op
    case Data(n, name, value, pvt) =>
      AllocateConserves(s, n);
      var w := WithEntry(s, n);
      PutConserves(w, n, Written(naming, EntryOf(w, n), name, value, pvt));
    case RemoveData(n, name, pvt) => RemoveConserves(naming, s, n, name, pvt);
    case EventAdd(n, bound, origType) =>
      AllocateConserves(s, n);
      PutConserves(WithEntry(s, n), n, EntryOf(AfterEventAdd(s, n, bound, origType), n));
    case EventRemove(n, t) => EventRemoveConserves(special, s, n, t);
    case CleanData(ns) => CleanConserves(s, ns);
    case DrawGuid =>
  }

  /** A freed id is the next one handed out: cleaning a node and writing to another passes it on. */
  lemma FreedIdIsReused(naming: Naming, s: Store, m: Node, n: Node, name: string, v: Value)
    requires Inv(s) && Live(s, m) && n !in s.expando && m != n
    ensures var r := AfterData(naming, AfterClean(s, [m]), n, Key(name), Some(v), false);
            r.expando[n] == s.expando[m] && r.guid == s.guid && r.deletedIds == s.deletedIds && m !in r.expando
  {
    assert AfterClean(s, [m]) == Release(AfterClean(s, []), m) by {
      assert [m][..0] == [];
    }
    assert Release(s, m).deletedIds[..|s.deletedIds|] == s.deletedIds;
  }

  // ---------- what is stored is found ----------

  /** The user's data of a node, or its private entries. */
  function Values(s: Store, n: Node, pvt: bool): map<string, Value>
  {
    if !Live(s, n) then map[] else ValuesIn(EntryOf(s, n), pvt)
  }

  function ValuesIn(e: Entry, pvt: bool): map<string, Value>
  {
    if pvt then e.priv else DataOr(e)
  }

  /** What a call with a name answers: the property of that name, else that of its camel-cased form. */
  function Lookup(naming: Naming, s: Store, n: Node, name: string, pvt: bool): Option<Value>
  {
    var values := Values(s, n, pvt);
    if name in values then Some(values[name])
    else if naming.camelCase(name) in values then Some(values[naming.camelCase(name)])
    else None
  }

  /** From `s` to `r` nothing else has changed than the values of `n` of that kind. */
  ghost predicate OthersStay(s: Store, r: Store, n: Node, pvt: bool)
  {
    Values(r, n, !pvt) == Values(s, n, !pvt) && forall m, p | m != n :: Values(r, m, p) == Values(s, m, p)
  }

  lemma EntryStays(s: Store, n: Node)
    requires Inv(s)
    ensures Live(WithEntry(s, n), n) && forall m, p :: Values(WithEntry(s, n), m, p) == Values(s, m, p)
  {
    if n !in s.expando {
      var w := WithEntry(s, n);
      var id := w.expando[n];
      assert id !in s.cache && w.cache == s.cache[id := EMPTY];
      forall m, p
        ensures Values(w, m, p) == Values(s, m, p)
      {
        if m != n && m in s.expando {
          assert s.expando[m] in s.cache && s.expando[m] != id;
        }
      }
    }
  }

  lemma PutOnlyHere(s: Store, n: Node, e: Entry)
    requires Inv(s) && Live(s, n)
    ensures Live(Put(s, n, e), n) && EntryOf(Put(s, n, e), n) == e
    ensures forall m, p | m != n :: Values(Put(s, n, e), m, p) == Values(s, m, p)
    ensures forall m, p | m != n :: Values(Release(s, n), m, p) == Values(s, m, p)
    ensures forall p :: Values(Release(s, n), n, p) == map[]
  {
    forall m, p | m != n
      ensures Values(Put(s, n, e), m, p) == Values(s, m, p) && Values(Release(s, n), m, p) == Values(s, m, p)
    {
      if m in s.expando {
        assert s.expando[m] != s.expando[n];
      }
    }
  }

  /** A value is stored under the camel-cased name, pairs under their own names, and nothing else changes. */
  lemma DataIsWritten(naming: Naming, s: Store, n: Node, name: Name, value: Option<Value>, pvt: bool)
    requires Inv(s) && (value.Some? ==> name.Key?)
    ensures var r := AfterData(naming, s, n, name, value, pvt);
      OthersStay(s, r, n, pvt) &&
      Values(r, n, pvt) ==
        if value.Some? then Values(s, n, pvt)[naming.camelCase(name.name) := value.value]
        else if name.Pairs? then Values(s, n, pvt) + name.pairs
        else Values(s, n, pvt)
  {
    EntryStays(s, n);
    AllocateKeeps(s, n);
    var w := WithEntry(s, n);
    PutOnlyHere(w, n, Written(naming, EntryOf(w, n), name, value, pvt));
    EntryIsWritten(naming, EntryOf(w, n), name, value, pvt);
  }

  lemma EntryIsWritten(naming: Naming, e: Entry, name: Name, value: Option<Value>, pvt: bool)
    requires value.Some? ==> name.Key?
    ensures var r := Written(naming, e, name, value, pvt);
      ValuesIn(r, !pvt) == ValuesIn(e, !pvt) &&
      ValuesIn(r, pvt) ==
        if value.Some? then ValuesIn(e, pvt)[naming.camelCase(name.name) := value.value]
        else if name.Pairs? then ValuesIn(e, pvt) + name.pairs
        else ValuesIn(e, pvt)
  {
  }

  /**
   Reading a name just written gives the value, exactly if the name is camel-cased, or is not
   itself among the properties with another value.
   */
  lemma WriteIsReadIff(naming: Naming, s: Store, n: Node, name: string, v: Value, pvt: bool)
    requires Inv(s)
    ensures Lookup(naming, AfterData(naming, s, n, Key(name), Some(v), pvt), n, name, pvt) == Some(v) <==>
      naming.camelCase(name) == name || name !in Values(s, n, pvt) || Values(s, n, pvt)[name] == v
  {
    DataIsWritten(naming, s, n, Key(name), Some(v), pvt);
  }

  /** A pair stored under a dashed name hides what is written to that name later. */
  lemma DashedNameHidesWrite(naming: Naming)
    requires naming.camelCase("a-b") == "aB"
    ensures
      var s := AfterData(naming, NEW_STORE, 7, Pairs(map["a-b" := 1]), None, false);
      Lookup(naming, AfterData(naming, s, 7, Key("a-b"), Some(2), false), 7, "a-b", false) == Some(1)
  {
    var s := AfterData(naming, NEW_STORE, 7, Pairs(map["a-b" := 1]), None, false);
    StepKeeps(naming, map[], NEW_STORE, Data(7, Pairs(map["a-b" := 1]), None, false));
    DataIsWritten(naming, NEW_STORE, 7, Pairs(map["a-b" := 1]), None, false);
    DataIsWritten(naming, s, 7, Key("a-b"), Some(2), false);
  }

  /**
   Removal by name takes away the property of that name; without it that of the camel-cased name;
   without that those the camel-cased name lists.  A list of names goes in both forms.
   */
  predicate IsDoomed(naming: Naming, present: set<string>, name: Name, k: string)
  {
    match name
    case NoName => true
    case Pairs(_) => true
    case Key(w) =>
      if w == "" then true
      else if w in present then k == w
      else if naming.camelCase(w) in present then k == naming.camelCase(w)
      else k in naming.split(naming.camelCase(w))
    case Keys(ws) => exists i :: 0 <= i < |ws| && (k == ws[i] || k == naming.camelCase(ws[i]))
  }

  /** User data are removed as named, or all of them, and nothing else changes. */
  lemma DataIsRemoved(naming: Naming, s: Store, n: Node, name: Name)
    requires Inv(s)
    ensures var r := AfterRemove(naming, s, n, name, false);
      OthersStay(s, r, n, false) &&
      (forall k :: k in Values(r, n, false) <==>
        k in Values(s, n, false) && !IsDoomed(naming, Values(s, n, false).Keys, name, k)) &&
      forall k | k in Values(r, n, false) :: Values(r, n, false)[k] == Values(s, n, false)[k]
  {
    if Live(s, n) {
      var e := EntryOf(s, n);
      var rest := if Named(name) then DataOr(e) - DoomedKeys(naming, DataOr(e).Keys, name) else map[];
      PutOnlyHere(s, n, e.(data := Some(rest)));
      PutOnlyHere(s, n, e.(data := None));
      if Named(name) {
        DoomedAreNamed(naming, DataOr(e).Keys, name);
      }
      assert Values(AfterRemove(naming, s, n, name, false), n, false) == rest;
    }
  }

  /** Private entries likewise; without a name all data of the node go, the user's too. */
  lemma PrivateIsRemoved(naming: Naming, s: Store, n: Node, name: Name)
    requires Inv(s)
    ensures var r := AfterRemove(naming, s, n, name, true);
      (forall m, p | m != n :: Values(r, m, p) == Values(s, m, p)) &&
      (!Named(name) ==> !Live(r, n)) &&
      (Named(name) && Live(s, n) ==>
        var doomed := (k: string) => IsDoomed(naming, KeysOf(EntryOf(s, n)), name, k);
        (forall k | k != "data" && k != "events" ::
          k in Values(r, n, true) <==> k in Values(s, n, true) && !doomed(k)) &&
        (forall k | k in Values(r, n, true) :: Values(r, n, true)[k] == Values(s, n, true)[k]) &&
        Values(r, n, false) == if doomed("data") then map[] else Values(s, n, false))
  {
    if Live(s, n) {
      var e := EntryOf(s, n);
      PutOnlyHere(s, n, e);
      if Named(name) {
        var rest := WithoutKeys(e, DoomedKeys(naming, KeysOf(e), name));
        PutOnlyHere(s, n, rest);
        DoomedAreNamed(naming, KeysOf(e), name);
        var r := AfterRemove(naming, s, n, name, true);
        assert forall p :: Values(r, n, p) == ValuesIn(rest, p);
      }
    }
  }

  lemma DoomedAreNamed(naming: Naming, present: set<string>, name: Name)
    requires Named(name)
    ensures forall k :: k in DoomedKeys(naming, present, name) <==> IsDoomed(naming, present, name, k)
  {
    forall k
      ensures k in DoomedKeys(naming, present, name) <==> IsDoomed(naming, present, name, k)
    {
      if name.Keys? {
        KeysAreDoomed(naming, name.names, k);
      }
    }
  }

  lemma KeysAreDoomed(naming: Naming, names: seq<string>, k: string)
    ensures k in (set w | w in names) + (set w | w in names :: naming.camelCase(w)) <==>
      exists i :: 0 <= i < |names| && (k == names[i] || k == naming.camelCase(names[i]))
  {
    if w :| w in names && k == naming.camelCase(w) {
      var i :| 0 <= i < |names| && names[i] == w;
    }
  }

  /** After the removal of a name it reads as absent, exactly if it was not there in two forms. */
  lemma RemovedIsGoneIff(naming: Naming, s: Store, n: Node, name: string)
    requires Inv(s) && name != ""
    ensures Lookup(naming, AfterRemove(naming, s, n, Key(name), false), n, name, false) == None <==>
      !(name in Values(s, n, false) && naming.camelCase(name) != name && naming.camelCase(name) in Values(s, n, false))
  {
    DataIsRemoved(naming, s, n, Key(name));
  }

  // ---------- the handlers an event removal leaves ----------

  lemma {:induction false} WithoutCounts(handlers: seq<string>, origType: string, o: string)
    ensures multiset(Without(handlers, origType))[o] == if o == origType then 0 else multiset(handlers)[o]
  {
    if handlers != [] {
      WithoutCounts(handlers[1..], origType, o);
      assert handlers == [handlers[0]] + handlers[1..];
    }
  }

  /** Handlers of `t` filed under its bound type go, each type with its last handler, and no others. */
  lemma EventTypesLeft(types: map<string, seq<string>>, bound: string, t: string, b: string, o: string)
    ensures var left := TypesLeft(types, bound, t);
      (b in left ==> b in types) &&
      (b in types && b != bound ==> b in left && left[b] == types[b]) &&
      (b in left ==> multiset(left[b])[o] == if b == bound && o == t then 0 else multiset(types[b])[o]) &&
      (b in types && b !in left ==> b == bound && forall h | h in types[b] :: h == t)
  {
    if b in types && b == bound {
      WithoutCounts(types[b], t, o);
      forall h | h in types[b] && h != t
        ensures Without(types[b], t) != []
      {
        WithoutCounts(types[b], t, h);
        assert multiset(types[b])[h] > 0;
      }
    }
  }

  /** With the last event go the list of events and the handle, and with the last entry all of it. */
  lemma EventsAreRemoved(special: map<string, Option<string>>, s: Store, n: Node, t: string)
    requires Inv(s) && Live(s, n) && EntryOf(s, n).events.Some?
    ensures var bound := if t in special && special[t].Some? then special[t].value else t;
      var left := TypesLeft(EntryOf(s, n).events.value, bound, t);
      var r := AfterEventRemove(special, s, n, t);
      OthersStay(s, r, n, true) &&
      Values(r, n, true) == (if left == map[] then Values(s, n, true) - {"handle"} else Values(s, n, true)) &&
      (left != map[] ==> Live(r, n) && EntryOf(r, n).events == Some(left)) &&
      (left == map[] ==> !Live(r, n) || EntryOf(r, n).events.None?)
  {
    var e := EntryOf(s, n);
    var left := TypesLeft(e.events.value, BoundType(special, t), t);
    PutOnlyHere(s, n, e.(events := Some(left)));
    PutOnlyHere(s, n, e.(priv := e.priv - {"handle"}, events := None));
  }

  // ---------- facts for the recursive cleanup ----------

  /** One more than the number of event types in the node's entry; 0 if it has no events. */
  function EventCount(s: Store, n: Node): nat
  {
    if Live(s, n) && EntryOf(s, n).events.Some? then 1 + |EntryOf(s, n).events.value| else 0
  }

  /** `now` is `was` with another entry for `n`, or with the id of `n` freed. */
  predicate SameButFor(was: Store, now: Store, n: Node)
  {
    now == Release(was, n) || (Live(was, n) && Live(now, n) && now == Put(was, n, EntryOf(now, n)))
  }

  lemma EntryIsForgotten(s: Store, n: Node, e: Entry, f: Entry)
    requires Live(s, n)
    ensures Live(Put(s, n, e), n) && EntryOf(Put(s, n, e), n) == e
    ensures Put(Put(s, n, e), n, f) == Put(s, n, f)
    ensures Release(Put(s, n, e), n) == Release(s, n)
    ensures PutOrRelease(Put(s, n, e), n, f) == PutOrRelease(s, n, f)
  {
    assert (s.cache[s.expando[n] := e]) - {s.expando[n]} == s.cache - {s.expando[n]};
  }

  lemma RemovingEventsKey(naming: Naming, s: Store, n: Node, e: Entry)
    requires Live(s, n) && e.events.Some?
    ensures AfterRemove(naming, Put(s, n, e), n, Key("events"), true) == PutOrRelease(s, n, e.(events := None))
  {
    EntryIsForgotten(s, n, e, e.(events := None));
    assert "events" in KeysOf(e);
    assert {"events"} - {"data", "events"} == {};
    assert WithoutKeys(e, {"events"}) == e.(events := None);
  }

  lemma TypesLeftNoMore(types: map<string, seq<string>>, bound: string, origType: string)
    ensures |TypesLeft(types, bound, origType)| <= |types|
  {
    if bound in types {
      var left := Without(types[bound], origType);
      assert types[bound := left].Keys == types.Keys;
      assert |types[bound := left]| == |types[bound := left].Keys| && |types| == |types.Keys|;
      assert (types - {bound}).Keys == types.Keys - {bound};
      assert |types - {bound}| == |(types - {bound}).Keys|;
    }
  }

  lemma EventRemoveStays(special: map<string, Option<string>>, was: Store, now: Store, n: Node, t: string)
    requires SameButFor(was, now, n) && Live(now, n)
    ensures SameButFor(was, AfterEventRemove(special, now, n, t), n)
    ensures EventCount(AfterEventRemove(special, now, n, t), n) <= EventCount(now, n)
  {
    var e := EntryOf(now, n);
    if e.events.Some? {
      var left := TypesLeft(e.events.value, BoundType(special, t), t);
      TypesLeftNoMore(e.events.value, BoundType(special, t), t);
      EntryIsForgotten(was, n, e, e.(events := Some(left)));
      EntryIsForgotten(was, n, e, e.(priv := e.priv - {"handle"}, events := None));
    }
  }

  // ---------- the object ----------

  /** The shared variables `jQuery.cache`, `jQuery.guid`, `core_deletedIds` and the nodes' expandos. */
  class DataCache {
    const naming: Naming
    const special: map<string, Option<string>>
    var guid: nat
    var deletedIds: seq<nat>
    var expando: map<Node, nat>
    var cache: map<nat, Entry>

    function S(): Store
      reads this
    {
      Store(guid, deletedIds, expando, cache)
    }

    constructor (naming: Naming, special: map<string, Option<string>>)
      ensures S() == NEW_STORE && this.naming == naming && this.special == special
    {
      this.naming, this.special := naming, special;
      guid, deletedIds, expando, cache := 1, [], map[], map[];
    }

    /** `internalData`; what it answers for a name, `undefined` being None. */
    method InternalData(n: Node, name: Name, value: Option<Value>, pvt: bool) returns (ret: Option<Value>)
      requires value.Some? ==> name.Key?
      modifies this
      ensures S() == AfterData(naming, old(S()), n, name, value, pvt)
      ensures name.Key? ==> ret == Lookup(naming, S(), n, name.name, pvt)
    {
      var known := n in expando && expando[n] in cache;
      if (!known || (!pvt && cache[expando[n]].data.None?)) && value.None? && name.Key? {
        return None;
      }
      var id := MakeEntry(n);
      var e := cache[id];
      if name.Pairs? {
        e := if pvt then e.(priv := e.priv + name.pairs) else e.(data := Some(DataOr(e) + name.pairs));
      }
      if !pvt && e.data.None? {
        e := e.(data := Some(map[]));
      }
      if value.Some? {
        var key := naming.camelCase(name.name);
        e := if pvt then e.(priv := e.priv[key := value.value]) else e.(data := Some(e.data.value[key := value.value]));
      }
      cache := cache[id := e];
      ret := None;
      if name.Key? {
        var thisCache := if pvt then e.priv else e.data.value;
        if name.name in thisCache {
          ret := Some(thisCache[name.name]);
        } else if naming.camelCase(name.name) in thisCache {
          ret := Some(thisCache[naming.camelCase(name.name)]);
        }
      }
    }

    /** The node gets an id if it has none, and an entry. */
    method MakeEntry(n: Node) returns (id: nat)
      modifies this
      ensures S() == WithEntry(old(S()), n) && Live(S(), n) && id == S().expando[n]
    {
      if n !in expando {
        if deletedIds != [] {
          var last := |deletedIds| - 1;
          expando := expando[n := deletedIds[last]];
          deletedIds := deletedIds[..last];
        } else {
          expando := expando[n := guid];
          guid := guid + 1;
        }
      }
      id := expando[n];
      if id !in cache {
        cache := cache[id := EMPTY];
      }
    }

    /** `internalRemoveData` */
    method InternalRemoveData(n: Node, name: Name, pvt: bool)
      modifies this
      ensures S() == AfterRemove(naming, old(S()), n, name, pvt)
      decreases if pvt && name == Key("events") then 0 else EventCount(S(), n), 3
    {
      if !(n in expando && expando[n] in cache) {
        return;
      }
      var id := expando[n];
      var e := cache[id];
      if Named(name) {
        if pvt {
          e := WithoutKeys(e, DoomedKeys(naming, KeysOf(e), name));
          cache := cache[id := e];
          if !IsEmptyDataObject(e) {
            return;
          }
        } else if e.data.Some? {
          e := e.(data := Some(e.data.value - DoomedKeys(naming, e.data.value.Keys, name)));
          cache := cache[id := e];
          if e.data.value != map[] {
            return;
          }
        }
      }
      if !pvt {
        e := e.(data := None);
        cache := cache[id := e];
        if !IsEmptyDataObject(e) {
          return;
        }
      }
      EntryIsForgotten(old(S()), n, e, e);
      assert S() == Put(old(S()), n, e);
      CleanOne(n);
    }

    /** The body of `cleanData` for one node. */
    method CleanOne(n: Node)
      modifies this
      ensures S() == Release(old(S()), n)
      decreases EventCount(S(), n), 2
    {
      if n in expando && expando[n] in cache {
        var id := expando[n];
        var e := cache[id];
        if e.events.Some? {
          var types := e.events.value.Keys;
          while types != {}
            invariant SameButFor(old(S()), S(), n)
            invariant EventCount(S(), n) <= old(EventCount(S(), n))
            decreases types
          {
            var t :| t in types;
            types := types - {t};
            // a type deleted meanwhile is not visited
            if id in cache && cache[id].events.Some? && t in cache[id].events.value && t in special {
              EventRemoveStays(special, old(S()), S(), n, t);
              EventRemove(n, t);
            }
          }
        }
        if Live(S(), n) {
          EntryIsForgotten(old(S()), n, cache[id], cache[id]);
        }
        // the id may have been freed by the removal of the last event
        if id in cache {
          cache := cache - {id};
          expando := expando - {n};
          deletedIds := deletedIds + [id];
        }
      }
    }

    /** `event.remove( elem, type )` */
    method EventRemove(n: Node, t: string)
      modifies this
      ensures S() == AfterEventRemove(special, old(S()), n, t)
      decreases EventCount(S(), n), 1
    {
      if !(n in expando && expando[n] in cache) || cache[expando[n]].events.None? {
        return;
      }
      var id := expando[n];
      var e := cache[id];
      var left := TypesLeft(e.events.value, BoundType(special, t), t);
      e := e.(events := Some(left));
      if left == map[] {
        e := e.(priv := e.priv - {"handle"});
      }
      cache := cache[id := e];
      EntryIsForgotten(old(S()), n, e, e);
      if left == map[] {
        RemovingEventsKey(naming, old(S()), n, e);
        InternalRemoveData(n, Key("events"), true);
      }
    }

    method CleanData(ns: seq<Node>)
      modifies this
      ensures S() == AfterClean(old(S()), ns)
    {
      var i := 0;
      while i < |ns|
        invariant 0 <= i <= |ns| && S() == AfterClean(old(S()), ns[..i])
      {
        assert ns[..i + 1][..i] == ns[..i];
        CleanOne(ns[i]);
        i := i + 1;
      }
      assert ns[..|ns|] == ns;
    }
  }
}
