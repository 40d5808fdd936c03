/**
 The tables of a parsed SQL statement: `DefaultSqlModel`, with the names of `DefaultBaseTable`.

 Names are compared in lower case and without surrounding blanks.  The list of tables keeps the
 first table of each name; the key built from the sorted list is proved to depend on nothing
 but the statement's type and its set of names, and, for names that are not empty and hold no
 delimiter, to determine both.
 */
module SqlModel {
  import opened JavaText
  import opened Wrappers

  /** A table by what `getName` answers, which is always in normal form, and its alias. */
  datatype Table = Table(name: string, alias: string)

  datatype SqlType = SELECT | INSERT | UPDATE | DELETE | OTHER

  const TABLE_DELIMITER_FOR_KEY := '~'

  // ---------- names ----------

  /** What `getName` answers once `setName` was given `name`. */
  function Normal(name: string): string
  {
    Trim(ToLowerCase(name))
  }

  predicate Less(a: string, b: string)
  {
    b != "" && (a == "" || a[0] < b[0] || (a[0] == b[0] && Less(a[1..], b[1..])))
  }

  /** `compareTo` of names that are in lower case already. */
  function CompareTo(a: Table, b: Table): int
  {
    if a.name == b.name then 0 else if Less(a.name, b.name) then -1 else 1
  }

  lemma {:induction false} LessIsStrict(a: string, b: string)
    ensures Less(a, b) ==> !Less(b, a) && a != b
    ensures a == b || Less(a, b) || Less(b, a)
  {
    if a != "" && b != "" && a[0] == b[0] {
      LessIsStrict(a[1..], b[1..]);
      assert a == [a[0]] + a[1..] && b == [b[0]] + b[1..];
    }
  }

  lemma {:induction false} LessIsTransitive(a: string, b: string, c: string)
    requires Less(a, b) && Less(b, c)
    ensures Less(a, c)
  {
    if a != "" && a[0] == b[0] == c[0] {
      LessIsTransitive(a[1..], b[1..], c[1..]);
    }
  }

  /** Two names are taken for the same exactly if they are, but for case and blanks around them. */
  lemma SameNameIff(a: string, b: string)
    ensures Normal(a) == Normal(b) <==> SameButForCase(Trim(a), Trim(b))
  {
    TrimLowers(a);
    TrimLowers(b);
    LowerIff(Trim(a), Trim(b));
  }

  /** The order of a dictionary: by the first letter that differs, a word before its extensions. */
  lemma {:induction false} LessIff(a: string, b: string)
    ensures Less(a, b) <==> exists k :: PartsAt(a, b, k)
  {
    if a != "" && b != "" && a[0] == b[0] {
      LessIff(a[1..], b[1..]);
      if k :| PartsAt(a[1..], b[1..], k) {
        assert a[..k + 1] == [a[0]] + a[1..][..k] && b[..k + 1] == [b[0]] + b[1..][..k];
        assert PartsAt(a, b, k + 1);
      }
      if k :| PartsAt(a, b, k) {
        assert k > 0;
        assert a[1..][..k - 1] == a[..k][1..] && b[1..][..k - 1] == b[..k][1..];
        assert PartsAt(a[1..], b[1..], k - 1);
      }
    } else if b != "" {
      if a == "" || a[0] < b[0] {
        assert PartsAt(a, b, 0);
      }
      forall k | PartsAt(a, b, k) ensures k == 0 {
        if k > 0 {
          FirstAgrees(a, b, k);
        }
      }
    }
  }

  lemma FirstAgrees(a: string, b: string, k: int)
    requires PartsAt(a, b, k) && k > 0
    ensures a[0] == b[0]
  {
    assert a[..k][0] == b[..k][0];
  }

  /** `a` and `b` agree up to place k, where `a` ends or has the smaller letter. */
  predicate PartsAt(a: string, b: string, k: int)
  {
    0 <= k <= |a| && k < |b| && a[..k] == b[..k] && (k == |a| || a[k] < b[k])
  }

  /** Neither case nor blanks around a name make a difference. */
  lemma CaseAndBlanksDoNotMatter(a: string, b: string, before: string, after: string)
    requires SameButForCase(a, b) && Blank(before) && Blank(after)
    ensures Normal(a) == Normal(before + b + after)
  {
    var low := ToLowerCase(b);
    LowerIff(a, b);
    assert ToLowerCase(before + b + after) == ToLowerCase(before) + low + ToLowerCase(after);
    TrimAround(ToLowerCase(before), low, ToLowerCase(after));
  }

  // ---------- lists of tables ----------

  function Names(tables: seq<Table>): set<string>
  {
    set t | t in tables :: t.name
  }

  predicate NoRepeats(tables: seq<Table>)
  {
    forall i, j | 0 <= i < j < |tables| :: tables[i].name != tables[j].name
  }

  /** Of all the tables offered, in order, the first of each name. */
  function Firsts(offered: seq<Table>): seq<Table>
  {
    if offered == [] then []
    else
      var last := |offered| - 1;
      var before := offered[..last];
      Firsts(before) + if offered[last].name in Names(before) then [] else [offered[last]]
  }

  lemma {:induction false} FirstsKeepTheNames(offered: seq<Table>)
    ensures NoRepeats(Firsts(offered)) && Names(Firsts(offered)) == Names(offered)
  {
    if offered != [] {
      var last := |offered| - 1;
      var before := offered[..last];
      FirstsKeepTheNames(before);
      assert offered == before + [offered[last]];
      assert Names(offered) == Names(before) + {offered[last].name};
      if offered[last].name !in Names(before) {
        assert Firsts(offered) == Firsts(before) + [offered[last]];
        forall i | 0 <= i < |Firsts(before)| ensures Firsts(before)[i].name != offered[last].name {
          assert Firsts(before)[i] in Firsts(before);
          assert Firsts(before)[i].name in Names(before);
        }
        assert Names(Firsts(offered)) == Names(Firsts(before)) + {offered[last].name};
      }
    }
  }

  lemma {:induction false} NamesCount(tables: seq<Table>)
    requires NoRepeats(tables)
    ensures |Names(tables)| == |tables|
  {
    if tables != [] {
      var last := |tables| - 1;
      NamesCount(tables[..last]);
      assert tables == tables[..last] + [tables[last]];
      assert Names(tables) == Names(tables[..last]) + {tables[last].name};
      assert tables[last].name !in Names(tables[..last]);
    }
  }

  /** Reordering changes neither the names nor that they do not repeat. */
  lemma {:induction false} Reordered(a: seq<Table>, b: seq<Table>)
    requires multiset(a) == multiset(b) && NoRepeats(a)
    ensures Names(a) == Names(b) && NoRepeats(b) && |a| == |b|
  {
    assert |multiset(a)| == |multiset(b)|;
    forall t ensures t in a <==> t in b {
      assert t in multiset(a) <==> t in multiset(b);
    }
    NamesCount(a);
    CountedNames(b);
  }

  lemma {:induction false} CountedNames(tables: seq<Table>)
    ensures |Names(tables)| <= |tables|
    ensures |Names(tables)| == |tables| ==> NoRepeats(tables)
  {
    if tables != [] {
      var last := |tables| - 1;
      var before := tables[..last];
      CountedNames(before);
      assert tables == before + [tables[last]];
      assert Names(tables) == Names(before) + {tables[last].name};
      if |Names(tables)| == |tables| {
        assert tables[last].name !in Names(before);
        forall i, j | 0 <= i < j < |tables| ensures tables[i].name != tables[j].name {
          assert tables[i] in before;
          if j < last {
            assert before[i] == tables[i] && before[j] == tables[j];
          } else {
            assert tables[i].name in Names(before);
          }
        }
      }
    }
  }

  // ---------- the key ----------

  predicate Ascending(names: seq<string>)
  {
    forall i, j | 0 <= i < j < |names| :: Less(names[i], names[j])
  }

  function NamesOf(tables: seq<Table>): seq<string>
  {
    seq(|tables|, i requires 0 <= i < |tables| => tables[i].name)
  }

  function Join(names: seq<string>): string
  {
    if names == [] then ""
    else if |names| == 1 then names[0]
    else names[0] + [TABLE_DELIMITER_FOR_KEY] + Join(names[1..])
  }

  /** How Java prints the type; there may be none. */
  function TypeText(t: Option<SqlType>): string
  {
    match t
    case None => "null"
    case Some(SELECT) => "SELECT"
    case Some(INSERT) => "INSERT"
    case Some(UPDATE) => "UPDATE"
    case Some(DELETE) => "DELETE"
    case Some(OTHER) => "OTHER"
  }

  function KeyText(t: Option<SqlType>, names: seq<string>): string
  {
    TypeText(t) + "." + Join(names)
  }

  ghost predicate IsKey(t: Option<SqlType>, names: set<string>, key: string)
  {
    exists sorted :: Ascending(sorted) && (set n | n in sorted) == names && key == KeyText(t, sorted)
  }

  predicate Plain(name: string)
  {
    name != "" && TABLE_DELIMITER_FOR_KEY !in name
  }

  /** A set of names has one ascending list. */
  lemma {:induction false} AscendingIsUnique(a: seq<string>, b: seq<string>)
    requires Ascending(a) && Ascending(b) && forall n :: n in a <==> n in b
    ensures a == b
  {
    if a == [] {
      if b != [] {
        HasMember(b);
      }
    } else {
      assert a[0] in b && b != [] && b[0] in a;
      LessIsStrict(a[0], b[0]);
      forall n ensures n in a[1..] <==> n in b[1..] {
        TailMembers(a, n);
        TailMembers(b, n);
      }
      AscendingIsUnique(a[1..], b[1..]);
      assert a == [a[0]] + a[1..] && b == [b[0]] + b[1..];
    }
  }

  lemma HasMember(a: seq<string>)
    requires a != []
    ensures exists n :: n in a
  {
    assert a[0] in a;
  }

  lemma TailMembers(a: seq<string>, n: string)
    requires Ascending(a) && a != []
    ensures n in a[1..] <==> n in a && n != a[0]
  {
    LessIsStrict(a[0], a[0]);
    if n in a[1..] {
      var i :| 0 <= i < |a| - 1 && a[1..][i] == n;
      assert Less(a[0], a[i + 1]);
      LessIsStrict(a[0], n);
    }
  }

  /** The key depends on the type and the set of names only. */
  lemma KeyIsCanonical(t: Option<SqlType>, names: set<string>, k1: string, k2: string)
    requires IsKey(t, names, k1) && IsKey(t, names, k2)
    ensures k1 == k2
  {
    var a :| Ascending(a) && (set n | n in a) == names && k1 == KeyText(t, a);
    var b :| Ascending(b) && (set n | n in b) == names && k2 == KeyText(t, b);
    forall n ensures n in a <==> n in b {
      assert n in a <==> n in names;
      assert n in b <==> n in names;
    }
    AscendingIsUnique(a, b);
  }

  /** And it determines both, for plain names. */
  lemma KeyDetermines(t: Option<SqlType>, u: Option<SqlType>, a: set<string>, b: set<string>, key: string)
    requires (forall n | n in a :: Plain(n)) && forall n | n in b :: Plain(n)
    requires IsKey(t, a, key) && IsKey(u, b, key)
    ensures t == u && a == b
  {
    var p :| Ascending(p) && (set n | n in p) == a && key == KeyText(t, p);
    var q :| Ascending(q) && (set n | n in q) == b && key == KeyText(u, q);
    TypeFirst(t, u, Join(p), Join(q));
    forall n | n in p ensures Plain(n) {
      assert n in a;
    }
    forall n | n in q ensures Plain(n) {
      assert n in b;
    }
    JoinIsInjective(p, q);
  }

  lemma BeforeDelimiter(text: string, delimiter: char, n: nat, part: string)
    requires |part| <= |text| && part == text[..|part|] && delimiter !in part
    requires n < |text| && text[n] == delimiter
    ensures |part| <= n
  {
    forall i | 0 <= i < |part| ensures text[i] != delimiter {
      assert text[i] == part[i];
    }
  }

  lemma TypeFirst(t: Option<SqlType>, u: Option<SqlType>, x: string, y: string)
    requires TypeText(t) + "." + x == TypeText(u) + "." + y
    ensures t == u && x == y
  {
    var a, b := TypeText(t) + "." + x, TypeText(u) + "." + y;
    assert '.' !in TypeText(t) && '.' !in TypeText(u);
    assert a[|TypeText(t)|] == '.' && b[|TypeText(u)|] == '.';
    assert a[..|TypeText(t)|] == TypeText(t) && b[..|TypeText(u)|] == TypeText(u);
    BeforeDelimiter(b, '.', |TypeText(t)|, TypeText(u));
    BeforeDelimiter(a, '.', |TypeText(u)|, TypeText(t));
    assert TypeText(t) == a[..|TypeText(t)|] == b[..|TypeText(t)|] == TypeText(u);
    assert x == a[|TypeText(t)| + 1..] == b[|TypeText(u)| + 1..] == y;
  }

  lemma {:induction false} JoinIsInjective(p: seq<string>, q: seq<string>)
    requires (forall n | n in p :: Plain(n)) && (forall n | n in q :: Plain(n)) && Join(p) == Join(q)
    ensures p == q
  {
    if p == [] || q == [] {
      assert p != [] ==> Plain(p[0]);
      assert q != [] ==> Plain(q[0]);
    } else {
      assert Plain(p[0]) && Plain(q[0]);
      SameFirst(Join(p), p[0], q[0], |p| > 1, |q| > 1);
      if |p| > 1 {
        assert Join(p)[|p[0]| + 1..] == Join(p[1..]) && Join(q)[|q[0]| + 1..] == Join(q[1..]);
        JoinIsInjective(p[1..], q[1..]);
      }
      assert p == [p[0]] + p[1..] && q == [q[0]] + q[1..];
    }
  }

  lemma SameFirst(text: string, a: string, b: string, moreA: bool, moreB: bool)
    requires TABLE_DELIMITER_FOR_KEY !in a && TABLE_DELIMITER_FOR_KEY !in b
    requires if moreA then |a| < |text| && text[|a|] == TABLE_DELIMITER_FOR_KEY && a == text[..|a|] else text == a
    requires if moreB then |b| < |text| && text[|b|] == TABLE_DELIMITER_FOR_KEY && b == text[..|b|] else text == b
    ensures a == b && moreA == moreB
  {
    assert text[..|text|] == text;
    if moreA {
      BeforeDelimiter(text, TABLE_DELIMITER_FOR_KEY, |a|, b);
    }
    if moreB {
      BeforeDelimiter(text, TABLE_DELIMITER_FOR_KEY, |b|, a);
    }
  }

  /**
   Other sets of names can share a key: no table and one without a name, and two names and one
   with the delimiter.
   */
  lemma KeysCollide(t: Option<SqlType>)
    ensures exists a, b, key :: a == {} && b == {""} && IsKey(t, a, key) && IsKey(t, b, key)
    ensures exists a, b, key :: a == {"a~b"} && b == {"a", "b"} && IsKey(t, a, key) && IsKey(t, b, key)
  {
    NoNameOrEmptyName(t);
    NamesOrOneWithDelimiter(t);
  }

  lemma NoNameOrEmptyName(t: Option<SqlType>)
    ensures IsKey(t, {}, KeyText(t, [])) && IsKey(t, {""}, KeyText(t, []))
  {
    var none: seq<string> := [];
    KeysOf(t, none, {}, [""]);
    KeysOf(t, [""], {""}, none);
  }

  lemma NamesOrOneWithDelimiter(t: Option<SqlType>)
    ensures IsKey(t, {"a~b"}, KeyText(t, ["a~b"])) && IsKey(t, {"a", "b"}, KeyText(t, ["a~b"]))
  {
    assert Join(["a", "b"]) == "a~b" by {
      assert ["a", "b"][1..] == ["b"];
    }
    KeysOf(t, ["a~b"], {"a~b"}, ["a", "b"]);
    KeysOf(t, ["a", "b"], {"a", "b"}, ["a~b"]);
  }

  lemma KeysOf(t: Option<SqlType>, sorted: seq<string>, names: set<string>, other: seq<string>)
    requires Ascending(sorted) && (set n | n in sorted) == names && Join(sorted) == Join(other)
    ensures IsKey(t, names, KeyText(t, sorted)) && IsKey(t, names, KeyText(t, other))
  {
  }

  // ---------- the same tables ----------

  lemma {:induction false} Subset(a: set<string>, b: set<string>)
    requires a <= b && |a| == |b|
    ensures a == b
  {
    if a != {} {
      var x :| x in a;
      Subset(a - {x}, b - {x});
    } else {
      assert |b| == 0;
    }
  }

  // ---------- the object ----------

  /** A join; a side may have no column, or a column without a table. */
  datatype JoinSides = JoinSides(left: Option<Table>, right: Option<Table>)

  predicate InJoin(joins: seq<JoinSides>, t: Table)
  {
    exists k :: 0 <= k < |joins| &&
      ((joins[k].left.Some? && joins[k].left.value.name == t.name) ||
       (joins[k].right.Some? && joins[k].right.value.name == t.name))
  }

  function WithoutJoins(joins: seq<JoinSides>, tables: seq<Table>): seq<Table>
  {
    if tables == [] then []
    else
      var last := |tables| - 1;
      WithoutJoins(joins, tables[..last]) + if InJoin(joins, tables[last]) then [] else [tables[last]]
  }

  class Model {
    var tables: seq<Table>
    /** The calls of `addNewTable`. */
    var notified: seq<Table>
    var joins: seq<JoinSides>
    var sqlType: Option<SqlType>
    var key: Option<string>
    ghost var offered: seq<Table>

    /** Whatever was offered, the first table of each name was reported and is listed, once. */
    ghost predicate Valid()
      reads this
    {
      notified == Firsts(offered) && multiset(tables) == multiset(notified) && NoRepeats(tables) &&
      Names(tables) == Names(offered)
    }

    constructor (sqlType: Option<SqlType>)
      ensures Valid() && offered == [] && key == None && joins == [] && this.sqlType == sqlType
    {
      tables, notified, joins, key, offered := [], [], [], None, [];
      this.sqlType := sqlType;
    }

    method FindTable(criteria: Table) returns (matching: Option<Table>)
      ensures matching.Some? <==> criteria.name in Names(tables)
      ensures matching.Some? ==> matching.value in tables && matching.value.name == criteria.name
    {
      for i := 0 to |tables|
        invariant forall k | 0 <= k < i :: tables[k].name != criteria.name
      {
        if CompareTo(tables[i], criteria) == 0 {
          return Some(tables[i]);
        }
      }
      matching := None;
    }

    method AddTable(val: Table)
      requires Valid()
      modifies this`tables, this`notified, this`offered
      ensures Valid() && offered == old(offered) + [val]
    {
      var found := FindTable(val);
      Offered(offered, tables, val);
      offered := offered + [val];
      if found.None? {
        notified := notified + [val];
        tables := tables + [val];
      }
    }

    /** The list itself is sorted. */
    method GetSortedTables() returns (list: seq<Table>)
      requires Valid()
      modifies this`tables
      ensures Valid() && list == tables && multiset(tables) == multiset(old(tables)) && Ascending(NamesOf(tables))
    {
      list := Sort(tables);
      Reordered(tables, list);
      tables := list;
    }

    /** The memo is filled once; tables added later do not change it. */
    method GetKey() returns (text: string)
      requires Valid()
      modifies this`tables, this`key
      ensures Valid() && key == Some(text) && multiset(tables) == multiset(old(tables))
      ensures old(key).Some? ==> text == old(key).value && tables == old(tables)
      ensures old(key).None? ==> IsKey(sqlType, Names(offered), text)
    {
      if key.None? {
        var list := GetSortedTables();
        var sb := Joined(TypeText(sqlType) + ".", list);
        NamesListed(list);
        assert sb == KeyText(sqlType, NamesOf(list));
        key := Some(sb);
      }
      text := key.value;
    }

    method TableExists(criteria: Table) returns (found: bool)
      ensures found <==> criteria.name in Names(tables)
    {
      for i := 0 to |tables|
        invariant forall k | 0 <= k < i :: tables[k].name != criteria.name
      {
        if tables[i].name == criteria.name {
          return true;
        }
      }
      found := false;
    }

    /** One direction is looked at and the counts compared; together that is equality of the name sets. */
    method MatchesTablesOf(target: Model) returns (same: bool)
      requires Valid() && target.Valid()
      ensures same <==> Names(offered) == Names(target.offered)
    {
      NamesCount(tables);
      NamesCount(target.tables);
      if |tables| != |target.tables| {
        return false;
      }
      for i := 0 to |tables|
        invariant forall k | 0 <= k < i :: tables[k].name in Names(target.tables)
      {
        var known := target.TableExists(tables[i]);
        if !known {
          assert tables[i].name in Names(tables);
          return false;
        }
      }
      Subset(Names(tables), Names(target.tables));
      same := true;
    }

    method TableExistsInJoin(criteria: Table) returns (found: bool)
      ensures found <==> InJoin(joins, criteria)
    {
      found := false;
      for i := 0 to |joins|
        invariant !found && forall k | 0 <= k < i ::
          !(joins[k].left.Some? && joins[k].left.value.name == criteria.name) &&
          !(joins[k].right.Some? && joins[k].right.value.name == criteria.name)
      {
        if joins[i].left.Some? && joins[i].left.value.name == criteria.name {
          found := true;
          break;
        }
        if joins[i].right.Some? && joins[i].right.value.name == criteria.name {
          found := true;
          break;
        }
      }
    }

    method GetTablesWithoutJoins() returns (list: seq<Table>)
      ensures list == WithoutJoins(joins, tables)
    {
      list := [];
      for i := 0 to |tables|
        invariant list == WithoutJoins(joins, tables[..i])
      {
        assert tables[..i + 1][..i] == tables[..i];
        var joined := TableExistsInJoin(tables[i]);
        if !joined {
          list := list + [tables[i]];
        }
      }
      assert tables[..|tables|] == tables;
    }
  }

  /** The loop of `getKey`. */
  method Joined(start: string, list: seq<Table>) returns (sb: string)
    ensures sb == start + Join(NamesOf(list))
  {
    sb := start;
    var count := 0;
    while count < |list|
      invariant 0 <= count <= |list| && sb == start + Join(NamesOf(list)[..count])
    {
      JoinMore(NamesOf(list), count);
      if count > 0 {
        sb := sb + [TABLE_DELIMITER_FOR_KEY];
      }
      sb := sb + list[count].name;
      count := count + 1;
    }
    assert NamesOf(list)[..count] == NamesOf(list);
  }

  /** An insertion sort stands for the library's. */
  method Sort(tables: seq<Table>) returns (sorted: seq<Table>)
    requires NoRepeats(tables)
    ensures multiset(sorted) == multiset(tables) && Ascending(NamesOf(sorted))
  {
    sorted := [];
    for i := 0 to |tables|
      invariant multiset(sorted) == multiset(tables[..i]) && Ascending(NamesOf(sorted))
    {
      assert tables[..i + 1] == tables[..i] + [tables[i]];
      Apart(tables, i, sorted);
      sorted := Insert(sorted, tables[i]);
    }
    assert tables[..|tables|] == tables;
  }

  method Insert(sorted: seq<Table>, t: Table) returns (after: seq<Table>)
    requires Ascending(NamesOf(sorted)) && forall k | 0 <= k < |sorted| :: sorted[k].name != t.name
    ensures multiset(after) == multiset(sorted) + multiset{t} && Ascending(NamesOf(after))
  {
    var i := |sorted|;
    while i > 0 && CompareTo(sorted[i - 1], t) > 0
      invariant 0 <= i <= |sorted| && forall k | i <= k < |sorted| :: Less(t.name, sorted[k].name)
    {
      i := i - 1;
      LessIsStrict(sorted[i].name, t.name);
    }
    if i > 0 {
      LessIsStrict(sorted[i - 1].name, t.name);
    }
    after := sorted[..i] + [t] + sorted[i..];
    InsertedCounts(sorted, t, i);
    BelowBoundary(sorted, t, i);
    InsertedInOrder(sorted, t, i);
  }

  lemma InsertedCounts(sorted: seq<Table>, t: Table, i: nat)
    requires i <= |sorted|
    ensures multiset(sorted[..i] + [t] + sorted[i..]) == multiset(sorted) + multiset{t}
  {
    assert sorted == sorted[..i] + sorted[i..];
  }

  lemma BelowBoundary(sorted: seq<Table>, t: Table, i: nat)
    requires i <= |sorted| && Ascending(NamesOf(sorted)) && (i > 0 ==> Less(sorted[i - 1].name, t.name))
    ensures forall k | 0 <= k < i :: Less(sorted[k].name, t.name)
  {
    forall k | 0 <= k < i ensures Less(sorted[k].name, t.name) {
      if k < i - 1 {
        assert Less(NamesOf(sorted)[k], NamesOf(sorted)[i - 1]);
        LessIsTransitive(sorted[k].name, sorted[i - 1].name, t.name);
      }
    }
  }

  lemma InsertedInOrder(sorted: seq<Table>, t: Table, i: nat)
    requires i <= |sorted| && Ascending(NamesOf(sorted))
    requires forall k | 0 <= k < i :: Less(sorted[k].name, t.name)
    requires forall k | i <= k < |sorted| :: Less(t.name, sorted[k].name)
    ensures Ascending(NamesOf(sorted[..i] + [t] + sorted[i..]))
  {
    var names := NamesOf(sorted);
    assert NamesOf(sorted[..i] + [t] + sorted[i..]) == names[..i] + [t.name] + names[i..];
    forall j, k | 0 <= j < k < |names| + 1
      ensures Less((names[..i] + [t.name] + names[i..])[j], (names[..i] + [t.name] + names[i..])[k])
    {
      if j != i && k != i {
        assert Less(names[if j < i then j else j - 1], names[if k < i then k else k - 1]);
      }
    }
  }

  lemma Apart(tables: seq<Table>, i: nat, sorted: seq<Table>)
    requires i < |tables| && NoRepeats(tables) && multiset(sorted) == multiset(tables[..i])
    ensures forall k | 0 <= k < |sorted| :: sorted[k].name != tables[i].name
  {
    forall k | 0 <= k < |sorted| ensures sorted[k].name != tables[i].name {
      assert sorted[k] in multiset(sorted);
      assert sorted[k] in tables[..i];
    }
  }

  /** One more table offered: the list gains it exactly if its name is new. */
  lemma Offered(offered: seq<Table>, tables: seq<Table>, val: Table)
    requires NoRepeats(tables) && Names(tables) == Names(offered)
    ensures Firsts(offered + [val]) == Firsts(offered) + (if val.name !in Names(tables) then [val] else [])
    ensures val.name !in Names(tables) ==> NoRepeats(tables + [val]) && Names(tables + [val]) == Names(offered + [val])
    ensures val.name in Names(tables) ==> Names(tables) == Names(offered + [val])
  {
    assert (offered + [val])[..|offered|] == offered;
    OneMoreName(offered, val);
    OneMoreName(tables, val);
    if val.name !in Names(tables) {
      forall k | 0 <= k < |tables| ensures tables[k].name != val.name {
        assert tables[k] in tables;
      }
    } else {
      assert Names(offered) + {val.name} == Names(offered);
    }
  }

  lemma OneMoreName(tables: seq<Table>, val: Table)
    ensures Names(tables + [val]) == Names(tables) + {val.name}
  {
  }

  lemma NamesListed(tables: seq<Table>)
    ensures (set n | n in NamesOf(tables)) == Names(tables)
  {
    forall n ensures n in NamesOf(tables) <==> n in Names(tables) {
      if n in Names(tables) {
        var t :| t in tables && t.name == n;
        var i :| 0 <= i < |tables| && tables[i] == t;
        assert NamesOf(tables)[i] == n;
      }
    }
  }

  lemma {:induction false} JoinMore(names: seq<string>, count: nat)
    requires count < |names|
    ensures Join(names[..count + 1]) ==
      Join(names[..count]) + (if count > 0 then [TABLE_DELIMITER_FOR_KEY] else []) + names[count]
  {
    if count > 0 {
      JoinMore(names[1..], count - 1);
      assert names[..count + 1][1..] == names[1..][..count];
      assert names[..count][1..] == names[1..][..count - 1];
    }
  }
}
