/**
 Exporting a request as an XML document and importing it again: `DefaultRequestExporter` and
 `DefaultRequestImporter`, between a request and the document tree.

 The trip normalises: a text becomes one line, and entry and exit times are read back from the
 client time.  It succeeds exactly for requests whose statements have a text and a stack trace,
 and a second trip changes nothing but, perhaps, what the parser of stack traces makes of them.
 */
module RequestCodec {
  import opened Decimal
  import opened JavaText
  import opened Wrappers

  datatype Xml = Element(tag: string, attributes: map<string, string>, kids: seq<Xml>) | Text(value: string)

  type ElementNode = x: Xml | x.Element? witness Element("", map[], [])

  /** The frames of a stack trace, each as it prints. */
  type Stack = seq<string>

  datatype Sql = Sql(
    sequence: int, entryTime: int, exitTime: int, clientTime: int, text: string, stack: Option<Stack>)

  datatype Request = Request(id: string, threadId: string, sql: seq<Sql>)

  datatype ImportError = BadNumber | NullPointer | OutOfBounds | EmptySql

  datatype Imported<+T> = Imported(value: T) | Failed(error: ImportError)

  const EXPORT_ROOT := "WuqispankExport"
  const SQL_DETAIL_ROOT := "WsSqlDetailRs"
  const RQ := "Rq"
  const SQL := "Sql"
  const STMT_TEXT := "StmtText"
  const STACK_TRACE := "StackTrace"
  const ID := "id"
  const THREAD_ID := "threadId"
  const SEQUENCE := "seq"
  const ENTRY_TIME := "entryTimeMs"
  const EXIT_TIME := "exitTimeMs"
  const CLIENT_DATE_TIME := "lousyDateTimeMs"

  // ---------- documents ----------

  /** The elements with a tag, in document order, the element itself included. */
  function Tagged(x: Xml, tag: string): seq<ElementNode>
    decreases x
  {
    match x
    case Text(_) => []
    case Element(t, _, kids) => (if t == tag then [x] else []) + TaggedAmong(kids, tag)
  }

  function TaggedAmong(xs: seq<Xml>, tag: string): seq<ElementNode>
    decreases xs
  {
    if xs == [] then [] else Tagged(xs[0], tag) + TaggedAmong(xs[1..], tag)
  }

  /** `getElementsByTagName` */
  function ByTagName(x: ElementNode, tag: string): seq<ElementNode>
  {
    TaggedAmong(x.kids, tag)
  }

  /** `getAttribute` */
  function Attribute(x: ElementNode, name: string): string
  {
    if name in x.attributes then x.attributes[name] else ""
  }

  /** `extractTextChildren` */
  function TextChildren(kids: seq<Xml>): string
  {
    if kids == [] then ""
    else (if kids[0].Text? then kids[0].value else "") + TextChildren(kids[1..])
  }

  // ---------- exporting ----------

  function JoinFrames(frames: Stack): string
  {
    if frames == [] then "" else if |frames| == 1 then frames[0] else frames[0] + ", " + JoinFrames(frames[1..])
  }

  /** `Arrays.toString` */
  function StackText(frames: Stack): string
  {
    "[" + JoinFrames(frames) + "]"
  }

  function SqlAttributes(s: Sql): map<string, string>
  {
    map[SEQUENCE := Print(s.sequence), ENTRY_TIME := Print(s.entryTime), EXIT_TIME := Print(s.exitTime),
        CLIENT_DATE_TIME := Print(s.clientTime)]
  }

  /** An element holding a text. */
  function Leaf(tag: string, text: string): ElementNode
  {
    Element(tag, map[], [Text(text)])
  }

  function SqlElement(s: Sql): ElementNode
  {
    Element(SQL, SqlAttributes(s),
      if s.stack.Some? then [Leaf(STMT_TEXT, s.text), Leaf(STACK_TRACE, StackText(s.stack.value))]
      else [Leaf(STMT_TEXT, s.text)])
  }

  function SqlElements(sql: seq<Sql>): seq<ElementNode>
  {
    seq(|sql|, k requires 0 <= k < |sql| => SqlElement(sql[k]))
  }

  function RequestElement(rw: Request, sql: seq<Sql>): ElementNode
  {
    Element(RQ, map[ID := rw.id, THREAD_ID := rw.threadId], SqlElements(sql))
  }

  function Document(root: string, rw: Request, sql: seq<Sql>): ElementNode
  {
    Element(root, map[], [RequestElement(rw, sql)])
  }

  method WriteSql(requestElement: ElementNode, sql: Sql) returns (after: ElementNode)
    ensures after == requestElement.(kids := requestElement.kids + [SqlElement(sql)])
  {
    var sqlElement := Element(SQL, map[], []);
    sqlElement := sqlElement.(attributes := sqlElement.attributes[SEQUENCE := Print(sql.sequence)]);
    sqlElement := sqlElement.(attributes := sqlElement.attributes[ENTRY_TIME := Print(sql.entryTime)]);
    sqlElement := sqlElement.(attributes := sqlElement.attributes[EXIT_TIME := Print(sql.exitTime)]);
    sqlElement := sqlElement.(attributes := sqlElement.attributes[CLIENT_DATE_TIME := Print(sql.clientTime)]);
    assert sqlElement.attributes == SqlAttributes(sql);
    var statement := Element(STMT_TEXT, map[], []);
    statement := statement.(kids := statement.kids + [Text(sql.text)]);
    assert statement == Leaf(STMT_TEXT, sql.text);
    sqlElement := sqlElement.(kids := sqlElement.kids + [statement]);
    var stackTrace := Element(STACK_TRACE, map[], []);
    if sql.stack.Some? {
      stackTrace := stackTrace.(kids := stackTrace.kids + [Text(StackText(sql.stack.value))]);
      assert stackTrace == Leaf(STACK_TRACE, StackText(sql.stack.value));
      sqlElement := sqlElement.(kids := sqlElement.kids + [stackTrace]);
    }
    assert sqlElement == SqlElement(sql);
    after := requestElement.(kids := requestElement.kids + [sqlElement]);
  }

  method Export(rw: Request) returns (doc: ElementNode)
    ensures doc == Document(EXPORT_ROOT, rw, rw.sql)
  {
    var requestElement := Element(RQ, map[ID := rw.id, THREAD_ID := rw.threadId], []);
    for k := 0 to |rw.sql|
      invariant requestElement == RequestElement(rw, rw.sql[..k])
    {
      requestElement := WriteSql(requestElement, rw.sql[k]);
      assert SqlElements(rw.sql[..k + 1]) == SqlElements(rw.sql[..k]) + [SqlElement(rw.sql[k])];
    }
    assert rw.sql[..|rw.sql|] == rw.sql;
    doc := Element(EXPORT_ROOT, map[], [requestElement]);
  }

  /** The document for a single statement, taken by its place in the list. */
  method ExportDetail(rw: Request, sqlSequence: int) returns (doc: Option<ElementNode>)
    ensures doc == if 0 <= sqlSequence < |rw.sql| then Some(Document(SQL_DETAIL_ROOT, rw, [rw.sql[sqlSequence]])) else None
  {
    if !(0 <= sqlSequence < |rw.sql|) {
      return None;
    }
    var requestElement := Element(RQ, map[ID := rw.id, THREAD_ID := rw.threadId], []);
    requestElement := WriteSql(requestElement, rw.sql[sqlSequence]);
    assert SqlElements([rw.sql[sqlSequence]]) == [] + [SqlElement(rw.sql[sqlSequence])];
    doc := Some(Element(SQL_DETAIL_ROOT, map[], [requestElement]));
  }

  // ---------- importing ----------

  /** The brackets go; a lone bracket makes the second look at the text fail. */
  function Strip(text: string): Option<string>
    requires text != ""
  {
    var t := if text[0] == '[' then text[1..] else text;
    if t == "" then None
    else Some(if t[|t| - 1] == ']' then t[..|t| - 1] else t)
  }

  function ImportStack(parse: string -> Stack, found: seq<ElementNode>): Imported<Option<Stack>>
  {
    if found == [] then Failed(NullPointer)
    else
      var text := TextChildren(found[0].kids);
      if Trim(text) == "" then Imported(None)
      else if Strip(text).None? then Failed(OutOfBounds)
      else Imported(Some(parse(Strip(text).value)))
  }

  function ImportText(found: seq<ElementNode>): Imported<string>
  {
    if found == [] then Failed(NullPointer)
    else
      var text := TextChildren(found[0].kids);
      if Trim(text) == "" then Failed(EmptySql) else Imported(OneLine(text))
  }

  /** The checks in the order they are made: the numbers, the stack trace, the text. */
  function Combined(sequence: Option<int>, client: Option<int>, stack: Imported<Option<Stack>>, text: Imported<string>)
    : Imported<Sql>
  {
    if sequence.None? || client.None? then Failed(BadNumber)
    else if stack.Failed? then Failed(stack.error)
    else if text.Failed? then Failed(text.error)
    else Imported(Sql(ToInt(sequence.value), client.value, client.value, client.value, text.value, stack.value))
  }

  function ImportOne(parse: string -> Stack, e: ElementNode): Imported<Sql>
  {
    Combined(ParseLong(Attribute(e, SEQUENCE)), ParseLong(Attribute(e, CLIENT_DATE_TIME)),
             ImportStack(parse, ByTagName(e, STACK_TRACE)), ImportText(ByTagName(e, STMT_TEXT)))
  }

  function Append<T>(before: Imported<seq<T>>, next: Imported<T>): Imported<seq<T>>
  {
    if before.Failed? then before else if next.Failed? then Failed(next.error) else Imported(before.value + [next.value])
  }

  /** All of them, or the error of the first that has one. */
  function Collect<T>(f: ElementNode -> Imported<T>, list: seq<ElementNode>): Imported<seq<T>>
  {
    if list == [] then Imported([]) else Append(Collect(f, list[..|list| - 1]), f(list[|list| - 1]))
  }

  lemma {:induction false} CollectIff<T>(f: ElementNode -> Imported<T>, list: seq<ElementNode>)
    ensures Collect(f, list).Imported? <==> forall k | 0 <= k < |list| :: f(list[k]).Imported?
    ensures Collect(f, list).Imported? ==>
      |Collect(f, list).value| == |list| &&
      forall k | 0 <= k < |list| :: f(list[k]) == Imported(Collect(f, list).value[k])
  {
    if list != [] {
      var last := |list| - 1;
      CollectIff(f, list[..last]);
      assert forall k | 0 <= k < last :: list[..last][k] == list[k];
    }
  }

  lemma {:induction false} FailsFrom<T>(f: ElementNode -> Imported<T>, list: seq<ElementNode>, n: nat, error: ImportError)
    requires n <= |list| && Collect(f, list[..n]) == Failed(error)
    ensures Collect(f, list) == Failed(error)
    decreases |list|
  {
    if n == |list| {
      assert list[..n] == list;
    } else {
      var last := |list| - 1;
      assert list[..last][..n] == list[..n];
      FailsFrom(f, list[..last], n, error);
    }
  }

  lemma CollectNext<T>(f: ElementNode -> Imported<T>, list: seq<ElementNode>, i: nat)
    requires i < |list|
    ensures Collect(f, list[..i + 1]) == Append(Collect(f, list[..i]), f(list[i]))
  {
    assert list[..i + 1][..i] == list[..i];
  }

  function SqlImporter(parse: string -> Stack): ElementNode -> Imported<Sql>
  {
    (e: ElementNode) => ImportOne(parse, e)
  }

  function ImportAll(parse: string -> Stack, list: seq<ElementNode>): Imported<seq<Sql>>
  {
    Collect(SqlImporter(parse), list)
  }

  method ImportSql(parse: string -> Stack, sqlList: seq<ElementNode>) returns (r: Imported<seq<Sql>>)
    ensures r == ImportAll(parse, sqlList)
  {
    var sql: seq<Sql> := [];
    for i := 0 to |sqlList|
      invariant ImportAll(parse, sqlList[..i]) == Imported(sql)
    {
      CollectNext(SqlImporter(parse), sqlList, i);
      var e := sqlList[i];
      var sequence := ParseLong(Attribute(e, SEQUENCE));
      var client := ParseLong(Attribute(e, CLIENT_DATE_TIME));
      if sequence.None? || client.None? {
        FailsFrom(SqlImporter(parse), sqlList, i + 1, BadNumber);
        return Failed(BadNumber);
      }
      var stack := ImportStack(parse, ByTagName(e, STACK_TRACE));
      if stack.Failed? {
        FailsFrom(SqlImporter(parse), sqlList, i + 1, stack.error);
        return Failed(stack.error);
      }
      var text := ImportText(ByTagName(e, STMT_TEXT));
      if text.Failed? {
        FailsFrom(SqlImporter(parse), sqlList, i + 1, text.error);
        return Failed(text.error);
      }
      var wrapper := Sql(|sql|, -1, -1, -1, text.value, stack.value);
      wrapper := wrapper.(sequence := ToInt(sequence.value));
      wrapper := wrapper.(clientTime := client.value);
      wrapper := wrapper.(entryTime := client.value);
      wrapper := wrapper.(exitTime := client.value);
      sql := sql + [wrapper];
    }
    assert sqlList[..|sqlList|] == sqlList;
    r := Imported(sql);
  }

  function ImportRequest(parse: string -> Stack, e: ElementNode): Imported<Request>
  {
    match ImportAll(parse, ByTagName(e, SQL))
    case Failed(error) => Failed(error)
    case Imported(sql) => Imported(Request(Attribute(e, ID), Attribute(e, THREAD_ID), sql))
  }

  function RequestImporter(parse: string -> Stack): ElementNode -> Imported<Request>
  {
    (e: ElementNode) => ImportRequest(parse, e)
  }

  /** The requests in a document; all of them, or an error. */
  function Import(parse: string -> Stack, doc: ElementNode): Imported<seq<Request>>
  {
    Collect(RequestImporter(parse), ByTagName(doc, RQ))
  }

  method ImportRequestElement(parse: string -> Stack, e: ElementNode) returns (r: Imported<Request>)
    ensures r == ImportRequest(parse, e)
  {
    var sql := ImportSql(parse, ByTagName(e, SQL));
    r := if sql.Failed? then Failed(sql.error)
         else Imported(Request(Attribute(e, ID), Attribute(e, THREAD_ID), sql.value));
  }

  method ImportRq(parse: string -> Stack, doc: ElementNode) returns (r: Imported<seq<Request>>)
    ensures r == Import(parse, doc)
  {
    var list := ByTagName(doc, RQ);
    var results: seq<Request> := [];
    for i := 0 to |list|
      invariant Collect(RequestImporter(parse), list[..i]) == Imported(results)
    {
      CollectNext(RequestImporter(parse), list, i);
      var request := ImportRequestElement(parse, list[i]);
      if request.Failed? {
        FailsFrom(RequestImporter(parse), list, i + 1, request.error);
        return Failed(request.error);
      }
      results := results + [request.value];
    }
    assert list[..|list|] == list;
    r := Imported(results);
  }

  // ---------- what an exported statement shows ----------

  /** Every number of the statement can be read from its element, and text and stack trace stand there as they are. */
  lemma ElementShows(s: Sql)
    requires InRange(s)
    ensures var e := SqlElement(s);
      e.tag == "Sql" && e.attributes.Keys == {"seq", "entryTimeMs", "exitTimeMs", "lousyDateTimeMs"} &&
      ParseLong(e.attributes["seq"]) == Some(s.sequence) &&
      ParseLong(e.attributes["entryTimeMs"]) == Some(s.entryTime) &&
      ParseLong(e.attributes["exitTimeMs"]) == Some(s.exitTime) &&
      ParseLong(e.attributes["lousyDateTimeMs"]) == Some(s.clientTime) &&
      e.kids[0] == Element("StmtText", map[], [Text(s.text)]) &&
      (s.stack.None? ==> |e.kids| == 1) &&
      (s.stack.Some? ==>
        |e.kids| == 2 && e.kids[1] == Element("StackTrace", map[], [Text("[" + JoinFrames(s.stack.value) + "]")]))
  {
    ParsePrint(s.sequence, LONG_MIN, LONG_MAX);
    ParsePrint(s.entryTime, LONG_MIN, LONG_MAX);
    ParsePrint(s.exitTime, LONG_MIN, LONG_MAX);
    ParsePrint(s.clientTime, LONG_MIN, LONG_MAX);
  }

  /** The frames stand behind one another, a comma and a blank between two. */
  lemma {:induction false} FramesAreJoined(frames: Stack, f: string)
    ensures JoinFrames([]) == ""
    ensures JoinFrames(frames + [f]) == if frames == [] then f else JoinFrames(frames) + ", " + f
    decreases |frames|
  {
    if frames == [] {
      assert frames + [f] == [f];
    } else {
      FramesAreJoined(frames[1..], f);
      assert (frames + [f])[1..] == frames[1..] + [f] && (frames + [f])[0] == frames[0];
      if |frames| > 1 {
        JoinedApart(frames[0], JoinFrames(frames[1..]), f);
      }
    }
  }

  lemma JoinedApart(a: string, b: string, c: string)
    ensures a + ", " + (b + ", " + c) == a + ", " + b + ", " + c
  {
  }

  /** So exported statements that differ, but in how their frames are cut, have different elements. */
  lemma ElementDetermines(a: Sql, b: Sql)
    requires InRange(a) && InRange(b) && SqlElement(a) == SqlElement(b)
    ensures WithoutStack(a) == WithoutStack(b) && a.stack.Some? == b.stack.Some?
    ensures a.stack.Some? ==> JoinFrames(a.stack.value) == JoinFrames(b.stack.value)
  {
    ElementShows(a);
    ElementShows(b);
    if a.stack.Some? && b.stack.Some? {
      StackComesBack(a.stack.value);
      StackComesBack(b.stack.value);
      assert StackText(a.stack.value) == StackText(b.stack.value);
    }
  }

  // ---------- the round trip ----------

  /** What an import makes of an exported statement. */
  function Normalised(parse: string -> Stack, s: Sql): Sql
    requires s.stack.Some?
  {
    Sql(s.sequence, s.clientTime, s.clientTime, s.clientTime, OneLine(s.text), Some(parse(JoinFrames(s.stack.value))))
  }

  /** The numbers are Java ints and longs. */
  predicate InRange(s: Sql)
  {
    IsInt(s.sequence) && IsLong(s.entryTime) && IsLong(s.exitTime) && IsLong(s.clientTime)
  }

  predicate Complete(s: Sql)
  {
    Trim(s.text) != "" && s.stack.Some?
  }

  lemma LeafTags(tag: string, text: string, t: string)
    ensures Tagged(Leaf(tag, text), t) == if t == tag then [Leaf(tag, text)] else []
    ensures TextChildren(Leaf(tag, text).kids) == text
  {
    assert [Text(text)][1..] == [];
    assert TaggedAmong([Text(text)], t) == Tagged(Text(text), t) + [];
  }

  lemma TagsOfOne(a: Xml, t: string)
    ensures TaggedAmong([a], t) == Tagged(a, t)
  {
    assert [a][1..] == [];
    assert Tagged(a, t) + [] == Tagged(a, t);
  }

  lemma TagsOfMore(a: Xml, xs: seq<Xml>, t: string)
    ensures TaggedAmong([a] + xs, t) == Tagged(a, t) + TaggedAmong(xs, t)
  {
    assert ([a] + xs)[1..] == xs;
  }

  lemma TagsOfTwo(a: Xml, b: Xml, t: string)
    ensures TaggedAmong([a, b], t) == Tagged(a, t) + Tagged(b, t)
  {
    TagsOfOne(b, t);
    assert [a, b][1..] == [b];
  }

  lemma SqlKids(s: Sql, t: string)
    ensures ByTagName(SqlElement(s), t) ==
      if t == STMT_TEXT then [Leaf(STMT_TEXT, s.text)]
      else if t == STACK_TRACE && s.stack.Some? then [Leaf(STACK_TRACE, StackText(s.stack.value))]
      else []
  {
    var text := Leaf(STMT_TEXT, s.text);
    LeafTags(STMT_TEXT, s.text, t);
    if s.stack.Some? {
      var stack := StackText(s.stack.value);
      LeafTags(STACK_TRACE, stack, t);
      TagsOfTwo(text, Leaf(STACK_TRACE, stack), t);
    } else {
      TagsOfOne(text, t);
    }
  }

  lemma StackComesBack(frames: Stack)
    ensures Trim(StackText(frames)) != "" && Strip(StackText(frames)) == Some(JoinFrames(frames))
  {
    var text := StackText(frames);
    assert text[0] == '[' && text[|text| - 1] == ']' && text[1..] == JoinFrames(frames) + "]";
  }

  lemma StackRoundTripIff(parse: string -> Stack, s: Sql)
    ensures ImportStack(parse, ByTagName(SqlElement(s), STACK_TRACE)) ==
      if s.stack.Some? then Imported(Some(parse(JoinFrames(s.stack.value)))) else Failed(NullPointer)
  {
    SqlKids(s, STACK_TRACE);
    if s.stack.Some? {
      LeafTags(STACK_TRACE, StackText(s.stack.value), STACK_TRACE);
      StackComesBack(s.stack.value);
    }
  }

  lemma TextRoundTripIff(s: Sql)
    ensures ImportText(ByTagName(SqlElement(s), STMT_TEXT)) ==
      if Trim(s.text) == "" then Failed(EmptySql) else Imported(OneLine(s.text))
  {
    SqlKids(s, STMT_TEXT);
    LeafTags(STMT_TEXT, s.text, STMT_TEXT);
  }

  /** One statement: it is read back exactly if it has a text and a stack trace. */
  lemma SqlRoundTripIff(parse: string -> Stack, s: Sql)
    requires InRange(s)
    ensures ImportOne(parse, SqlElement(s)).Imported? <==> Complete(s)
    ensures Complete(s) ==> ImportOne(parse, SqlElement(s)) == Imported(Normalised(parse, s))
  {
    var e := SqlElement(s);
    var stack := ImportStack(parse, ByTagName(e, STACK_TRACE));
    var text := ImportText(ByTagName(e, STMT_TEXT));
    NumbersComeBack(s);
    assert ImportOne(parse, e) == Combined(Some(s.sequence), Some(s.clientTime), stack, text);
    StackRoundTripIff(parse, s);
    TextRoundTripIff(s);
    CombinedIff(parse, s, stack, text);
  }

  lemma NumbersComeBack(s: Sql)
    requires InRange(s)
    ensures ParseLong(Attribute(SqlElement(s), SEQUENCE)) == Some(s.sequence)
    ensures ParseLong(Attribute(SqlElement(s), CLIENT_DATE_TIME)) == Some(s.clientTime)
  {
    ParsePrint(s.sequence, LONG_MIN, LONG_MAX);
    ParsePrint(s.clientTime, LONG_MIN, LONG_MAX);
  }

  lemma CombinedIff(parse: string -> Stack, s: Sql, stack: Imported<Option<Stack>>, text: Imported<string>)
    requires InRange(s)
    requires stack == if s.stack.Some? then Imported(Some(parse(JoinFrames(s.stack.value)))) else Failed(NullPointer)
    requires text == if Trim(s.text) == "" then Failed(EmptySql) else Imported(OneLine(s.text))
    ensures Combined(Some(s.sequence), Some(s.clientTime), stack, text).Imported? <==> Complete(s)
    ensures Complete(s) ==>
      Combined(Some(s.sequence), Some(s.clientTime), stack, text) == Imported(Normalised(parse, s))
  {
  }

  lemma SqlTagged(s: Sql, t: string)
    requires t == SQL || t == RQ
    ensures Tagged(SqlElement(s), t) == if t == SQL then [SqlElement(s)] else []
  {
    SqlKids(s, t);
    assert [SqlElement(s)] + [] == [SqlElement(s)];
  }

  /** Elements that all, or none of them, are what is looked for. */
  lemma {:induction false} TagsOfAll(xs: seq<ElementNode>, t: string, found: bool)
    requires forall k | 0 <= k < |xs| :: Tagged(xs[k], t) == if found then [xs[k]] else []
    ensures TaggedAmong(xs, t) == if found then xs else []
  {
    if xs != [] {
      var rest := xs[1..];
      TagsOfAll(rest, t, found);
      TagsOfMore(xs[0], rest, t);
      assert xs == [xs[0]] + rest;
      if !found {
        assert TaggedAmong(xs, t) == [] + [];
      }
    }
  }

  lemma SqlElementsTagged(sql: seq<Sql>, t: string)
    requires t == SQL || t == RQ
    ensures TaggedAmong(SqlElements(sql), t) == if t == SQL then SqlElements(sql) else []
  {
    forall k | 0 <= k < |sql| ensures Tagged(SqlElements(sql)[k], t) == if t == SQL then [SqlElements(sql)[k]] else [] {
      SqlTagged(sql[k], t);
    }
    TagsOfAll(SqlElements(sql), t, t == SQL);
  }

  predicate AllComplete(sql: seq<Sql>)
  {
    forall k | 0 <= k < |sql| :: Complete(sql[k])
  }

  predicate AllInRange(sql: seq<Sql>)
  {
    forall k | 0 <= k < |sql| :: InRange(sql[k])
  }

  function NormalisedAll(parse: string -> Stack, sql: seq<Sql>): seq<Sql>
    requires AllComplete(sql)
  {
    seq(|sql|, k requires 0 <= k < |sql| => Normalised(parse, sql[k]))
  }

  lemma AllRoundTripIff(parse: string -> Stack, sql: seq<Sql>)
    requires AllInRange(sql)
    ensures ImportAll(parse, SqlElements(sql)).Imported? <==> AllComplete(sql)
    ensures AllComplete(sql) ==> ImportAll(parse, SqlElements(sql)) == Imported(NormalisedAll(parse, sql))
  {
    var f := SqlImporter(parse);
    var list := SqlElements(sql);
    CollectIff(f, list);
    forall k | 0 <= k < |sql|
      ensures f(list[k]).Imported? <==> Complete(sql[k])
      ensures Complete(sql[k]) ==> f(list[k]) == Imported(Normalised(parse, sql[k]))
    {
      SqlRoundTripIff(parse, sql[k]);
    }
    if AllComplete(sql) {
      assert Collect(f, list).value == NormalisedAll(parse, sql);
    }
  }

  /**
   Import after export: it succeeds exactly if every statement has a text and a stack trace, and
   then gives the request with every statement normalised, in order.
   */
  lemma RoundTripIff(parse: string -> Stack, root: string, rw: Request, sql: seq<Sql>)
    requires AllInRange(sql)
    ensures Import(parse, Document(root, rw, sql)).Imported? <==> AllComplete(sql)
    ensures AllComplete(sql) ==>
      Import(parse, Document(root, rw, sql)) == Imported([Request(rw.id, rw.threadId, NormalisedAll(parse, sql))])
  {
    var e := RequestElement(rw, sql);
    OneRequest(root, rw, sql);
    AllRoundTripIff(parse, sql);
    assert ImportRequest(parse, e) ==
      match ImportAll(parse, SqlElements(sql))
      case Failed(error) => Failed(error)
      case Imported(back) => Imported(Request(rw.id, rw.threadId, back));
    CollectOne(RequestImporter(parse), e);
  }

  lemma OneRequest(root: string, rw: Request, sql: seq<Sql>)
    ensures ByTagName(Document(root, rw, sql), RQ) == [RequestElement(rw, sql)]
    ensures ByTagName(RequestElement(rw, sql), SQL) == SqlElements(sql)
    ensures Attribute(RequestElement(rw, sql), ID) == rw.id && Attribute(RequestElement(rw, sql), THREAD_ID) == rw.threadId
  {
    SqlElementsTagged(sql, SQL);
    SqlElementsTagged(sql, RQ);
    TagsOfOne(RequestElement(rw, sql), RQ);
  }

  lemma CollectOne<T>(f: ElementNode -> Imported<T>, e: ElementNode)
    ensures Collect(f, [e]) == match f(e) case Failed(error) => Failed(error) case Imported(back) => Imported([back])
  {
    assert [e][..0] == [];
    assert Collect(f, [e]) == Append(Collect(f, []), f(e));
    if f(e).Imported? {
      assert [] + [f(e).value] == [f(e).value];
    }
  }

  /** "Statement at index k has sequence k." */
  predicate Numbered(sql: seq<Sql>)
  {
    forall k | 0 <= k < |sql| :: sql[k].sequence == k
  }

  function WithoutStack(s: Sql): Sql
  {
    s.(stack := None)
  }

  /** The request read back has the same statements but for what their stack traces parse to. */
  predicate ComesBack(back: Imported<seq<Request>>, rw: Request, sql: seq<Sql>)
  {
    back.Imported? && |back.value| == 1 && back.value[0].id == rw.id && back.value[0].threadId == rw.threadId &&
    |back.value[0].sql| == |sql| &&
    forall k | 0 <= k < |sql| :: WithoutStack(back.value[0].sql[k]) == WithoutStack(sql[k])
  }

  /** One time only, and a text of one trimmed line. */
  predicate Simple(s: Sql)
  {
    s.entryTime == s.exitTime == s.clientTime && IsOneLine(s.text)
  }

  /** A trip changes nothing exactly if every statement is complete, with one time and a text of one trimmed line. */
  lemma TripChangesNothingIff(parse: string -> Stack, root: string, rw: Request, sql: seq<Sql>)
    requires AllInRange(sql)
    ensures ComesBack(Import(parse, Document(root, rw, sql)), rw, sql) <==>
      forall k | 0 <= k < |sql| :: Complete(sql[k]) && Simple(sql[k])
  {
    RoundTripIff(parse, root, rw, sql);
    if AllComplete(sql) {
      var back := NormalisedAll(parse, sql);
      forall k | 0 <= k < |sql| ensures WithoutStack(back[k]) == WithoutStack(sql[k]) <==> Simple(sql[k]) {
        OneLineKeepsIff(sql[k].text);
      }
    }
  }

  /** In any case it keeps order, numbers and client times, and makes every text one trimmed line. */
  lemma TripKeeps(parse: string -> Stack, root: string, rw: Request, sql: seq<Sql>)
    requires AllInRange(sql) && AllComplete(sql)
    ensures
      var back := Import(parse, Document(root, rw, sql));
      back.Imported? && |back.value| == 1 && back.value[0].id == rw.id && back.value[0].threadId == rw.threadId &&
      |back.value[0].sql| == |sql| && (Numbered(sql) <==> Numbered(back.value[0].sql)) &&
      forall k | 0 <= k < |sql| ::
        var s := back.value[0].sql[k];
        s.sequence == sql[k].sequence && s.clientTime == sql[k].clientTime && Simple(s) &&
        (IsOneLine(sql[k].text) ==> s.text == sql[k].text)
  {
    RoundTripIff(parse, root, rw, sql);
    var back := NormalisedAll(parse, sql);
    forall k | 0 <= k < |sql|
      ensures back[k].sequence == sql[k].sequence && Simple(back[k])
      ensures IsOneLine(sql[k].text) ==> back[k].text == sql[k].text
    {
      OneLineIsIdempotent(sql[k].text);
      OneLineKeepsIff(OneLine(sql[k].text));
      OneLineKeepsIff(sql[k].text);
    }
  }

  /** A request whose times are lost. */
  lemma TripLosesTimes(parse: string -> Stack)
    ensures
      var sql := [Sql(0, 1, 2, 3, "x", Some([]))];
      var back := Import(parse, Document(EXPORT_ROOT, Request("r", "t", sql), sql));
      back.Imported? && |back.value| == 1 && |back.value[0].sql| == 1 &&
      back.value[0].sql[0].entryTime == back.value[0].sql[0].exitTime == 3
  {
    var sql := [Sql(0, 1, 2, 3, "x", Some([]))];
    TripKeeps(parse, EXPORT_ROOT, Request("r", "t", sql), sql);
  }

  /** The document for one statement brings back that statement, under its own number. */
  lemma DetailComesBack(parse: string -> Stack, rw: Request, k: nat)
    requires k < |rw.sql| && Numbered(rw.sql) && AllInRange(rw.sql) && Complete(rw.sql[k])
    ensures Import(parse, Document(SQL_DETAIL_ROOT, rw, [rw.sql[k]])) ==
      Imported([Request(rw.id, rw.threadId, [Normalised(parse, rw.sql[k])])])
    ensures Normalised(parse, rw.sql[k]).sequence == k
  {
    RoundTripIff(parse, SQL_DETAIL_ROOT, rw, [rw.sql[k]]);
    assert NormalisedAll(parse, [rw.sql[k]]) == [Normalised(parse, rw.sql[k])];
  }

  /** What has been exported and imported once can be so again, and that changes nothing. */
  lemma SecondTripChangesNothing(parse: string -> Stack, root: string, rw: Request, sql: seq<Sql>)
    requires AllInRange(sql) && AllComplete(sql)
    ensures
      var once := Import(parse, Document(root, rw, sql));
      once.Imported? && |once.value| == 1 &&
      ComesBack(Import(parse, Document(root, once.value[0], once.value[0].sql)), once.value[0], once.value[0].sql)
  {
    RoundTripIff(parse, root, rw, sql);
    var once := Request(rw.id, rw.threadId, NormalisedAll(parse, sql));
    forall k | 0 <= k < |sql| ensures Complete(once.sql[k]) && InRange(once.sql[k]) && Simple(once.sql[k]) {
      assert Complete(sql[k]) && InRange(sql[k]);
      OneLineIsIdempotent(sql[k].text);
      OneLineKeepsIff(OneLine(sql[k].text));
      StaysFilled(sql[k].text);
    }
    TripChangesNothingIff(parse, root, once, once.sql);
  }

  lemma StaysFilled(s: string)
    requires Trim(s) != ""
    ensures Trim(OneLine(s)) != ""
  {
    TrimIsEmptyIff(s);
    var t := seq(|s|, i requires 0 <= i < |s| => if s[i] == '\n' || s[i] == '\r' then ' ' else s[i]);
    TrimIsEmptyIff(t);
    var i :| 0 <= i < |s| && s[i] > ' ';
    assert t[i] > ' ';
    TrimIsTrimmed(t);
    TrimIsEmptyIff(Trim(t));
    assert Trim(t)[0] > ' ';
  }
}
