/**
 `tokenize` and `select`: the cache of token lists and the code that is handed its contents.

 `tokenize` returns a copy of the outer array only, so the inner arrays are shared with the
 cache, and `select` shifts and splices; that it never does so to an array the cache can see is
 proved on the heap.  The scanners are functions that return the length of a non-empty prefix.
 */
module Tokenizer {
  import opened Wrappers
  import opened BoundedCache

  /** A token; `first` stands for `matches[ 0 ]` of a filter. */
  datatype Token = Token(value: string, kind: string, first: string)

  datatype Hit = Hit(len: nat, kind: string, first: string)

  /** The patterns: 0 and None say that there is no match at the start. */
  datatype Scanners = Scanners(
    comma: string -> nat,
    combinator: string -> Option<Hit>,
    filters: seq<string -> Option<Hit>>)

  predicate Matches(hit: Option<Hit>, text: string)
  {
    hit.Some? ==> 0 < hit.value.len <= |text|
  }

  ghost predicate Sound(sc: Scanners)
  {
    (forall text: string :: sc.comma(text) <= |text|) &&
    (forall text: string :: Matches(sc.combinator(text), text)) &&
    (forall i, text: string | 0 <= i < |sc.filters| :: Matches(sc.filters[i](text), text))
  }

  // ---------- what a selector consists of ----------

  type Group = seq<Token>

  /** `toSelector` */
  function ToSelector(tokens: Group): string
  {
    if tokens == [] then "" else tokens[0].value + ToSelector(tokens[1..])
  }

  /** The groups as written, each behind the text before it. */
  function Spelled(groups: seq<Group>, commas: seq<string>): string
    requires |groups| == |commas|
  {
    if groups == [] then ""
    else
      var last := |groups| - 1;
      Spelled(groups[..last], commas[..last]) + commas[last] + ToSelector(groups[last])
  }

  function Push(groups: seq<Group>, token: Token): seq<Group>
    requires groups != []
  {
    groups[|groups| - 1 := groups[|groups| - 1] + [token]]
  }

  // ---------- one pass of the loop ----------

  datatype Scan = Scan(groups: seq<Group>, soFar: string, matched: bool)

  function TakeComma(sc: Scanners, s: Scan): Scan
    requires Sound(sc)
  {
    var len := if s.matched then sc.comma(s.soFar) else 0;
    var rest := if 0 < len < |s.soFar| then s.soFar[len..] else s.soFar;
    Scan(if !s.matched || len > 0 then s.groups + [[]] else s.groups, rest, false)
  }

  function Take(s: Scan, hit: Option<Hit>): Scan
    requires s.groups != [] && Matches(hit, s.soFar)
  {
    match hit
    case None => s
    case Some(h) => Scan(Push(s.groups, Token(s.soFar[..h.len], h.kind, h.first)), s.soFar[h.len..], true)
  }

  /** `for ( type in Expr.filter )`, from filter `i` on. */
  function TakeFilters(sc: Scanners, s: Scan, i: nat): (r: Scan)
    requires Sound(sc) && i <= |sc.filters| && s.groups != []
    ensures r.groups != [] && |r.soFar| <= |s.soFar|
    ensures r.matched ==> s.matched || |r.soFar| < |s.soFar|
    decreases |sc.filters| - i
  {
    if i == |sc.filters| then s else TakeFilters(sc, Take(s, sc.filters[i](s.soFar)), i + 1)
  }

  function Pass(sc: Scanners, s: Scan): (r: Scan)
    requires Sound(sc) && (s.matched ==> s.groups != [])
    ensures r.groups != [] && (r.matched ==> |r.soFar| < |s.soFar|)
  {
    var c := TakeComma(sc, s);
    TakeFilters(sc, Take(c, sc.combinator(c.soFar)), 0)
  }

  /** The loop; it ends with nothing left, or where nothing matches. */
  function Scanned(sc: Scanners, s: Scan): Scan
    requires Sound(sc) && (s.matched ==> s.groups != [])
    decreases |s.soFar|
  {
    if s.soFar == "" then s
    else
      var p := Pass(sc, s);
      if p.matched then Scanned(sc, p) else p
  }

  /** The groups of a selector, or None where `Sizzle.error` is thrown. */
  function Groups(sc: Scanners, selector: string): Option<seq<Group>>
    requires Sound(sc)
  {
    var s := Scanned(sc, Scan([], selector, false));
    if s.soFar == "" then Some(s.groups) else None
  }

  // ---------- tokens spell the selector ----------

  lemma Regroup(a: string, b: string, c: string)
    ensures a + b + c == a + (b + c)
  {
  }

  lemma {:induction false} ToSelectorConcat(a: Group, b: Group)
    ensures ToSelector(a + b) == ToSelector(a) + ToSelector(b)
  {
    if a == [] {
      assert a + b == b;
    } else {
      ToSelectorConcat(a[1..], b);
      assert ToSelector(a + b) == a[0].value + ToSelector(a[1..] + b) by {
        assert (a + b)[0] == a[0] && (a + b)[1..] == a[1..] + b;
      }
      Regroup(a[0].value, ToSelector(a[1..]), ToSelector(b));
    }
  }

  /** What has been read, and what is left, make up the selector; nothing stands before the first group. */
  ghost predicate Reads(s: Scan, commas: seq<string>, selector: string)
  {
    |commas| == |s.groups| && Spelled(s.groups, commas) + s.soFar == selector && (commas != [] ==> commas[0] == "")
  }

  lemma TakeReads(s: Scan, hit: Option<Hit>, commas: seq<string>, selector: string)
    requires s.groups != [] && Matches(hit, s.soFar) && Reads(s, commas, selector)
    ensures Reads(Take(s, hit), commas, selector)
  {
    if hit.Some? {
      var text := s.soFar[..hit.value.len];
      var rest := s.soFar[hit.value.len..];
      PushSpelled(s.groups, commas, Token(text, hit.value.kind, hit.value.first));
      assert s.soFar == text + rest;
      Regroup(Spelled(s.groups, commas), text, rest);
    }
  }

  lemma PushSpelled(groups: seq<Group>, commas: seq<string>, token: Token)
    requires groups != [] && |groups| == |commas|
    ensures Spelled(Push(groups, token), commas) == Spelled(groups, commas) + token.value
  {
    var last := |groups| - 1;
    var text := ToSelector(groups[last]);
    var before := Spelled(groups[..last], commas[..last]) + commas[last];
    assert ToSelector(groups[last] + [token]) == text + token.value by {
      ToSelectorConcat(groups[last], [token]);
      assert [token][1..] == [] && token.value + "" == token.value;
    }
    assert Spelled(Push(groups, token), commas) == before + (text + token.value) by {
      assert Push(groups, token)[..last] == groups[..last];
    }
    Regroup(before, text, token.value);
  }

  lemma {:induction false} TakeFiltersReads(sc: Scanners, s: Scan, i: nat, commas: seq<string>, selector: string)
    requires Sound(sc) && i <= |sc.filters| && s.groups != [] && Reads(s, commas, selector)
    ensures Reads(TakeFilters(sc, s, i), commas, selector)
    decreases |sc.filters| - i
  {
    if i < |sc.filters| {
      TakeReads(s, sc.filters[i](s.soFar), commas, selector);
      TakeFiltersReads(sc, Take(s, sc.filters[i](s.soFar)), i + 1, commas, selector);
    }
  }

  lemma NewGroupSpelled(groups: seq<Group>, commas: seq<string>, text: string)
    requires |groups| == |commas|
    ensures Spelled(groups + [[]], commas + [text]) == Spelled(groups, commas) + text
  {
    assert (groups + [[]])[..|groups|] == groups && (commas + [text])[..|commas|] == commas;
    assert Spelled(groups, commas) + text + "" == Spelled(groups, commas) + text;
  }

  lemma TakeCommaReads(sc: Scanners, s: Scan, commas: seq<string>, selector: string) returns (after: seq<string>)
    requires Sound(sc) && (s.matched ==> s.groups != []) && Reads(s, commas, selector)
    ensures Reads(TakeComma(sc, s), after, selector)
  {
    var c := TakeComma(sc, s);
    if |c.groups| == |s.groups| {
      after := commas;
    } else {
      var text := s.soFar[..|s.soFar| - |c.soFar|];
      after := commas + [text];
      assert s.soFar == text + c.soFar;
      Regroup(Spelled(s.groups, commas), text, c.soFar);
      assert commas == [] ==> text == "";
      NewGroupSpelled(s.groups, commas, text);
    }
  }

  lemma PassReads(sc: Scanners, s: Scan, commas: seq<string>, selector: string) returns (after: seq<string>)
    requires Sound(sc) && (s.matched ==> s.groups != []) && Reads(s, commas, selector)
    ensures Reads(Pass(sc, s), after, selector)
  {
    after := TakeCommaReads(sc, s, commas, selector);
    var c := TakeComma(sc, s);
    TakeReads(c, sc.combinator(c.soFar), after, selector);
    TakeFiltersReads(sc, Take(c, sc.combinator(c.soFar)), 0, after, selector);
  }

  lemma {:induction false} ScannedReads(sc: Scanners, s: Scan, commas: seq<string>, selector: string)
    returns (after: seq<string>)
    requires Sound(sc) && (s.matched ==> s.groups != []) && Reads(s, commas, selector)
    ensures Reads(Scanned(sc, s), after, selector)
    decreases |s.soFar|
  {
    if s.soFar == "" {
      after := commas;
    } else {
      after := PassReads(sc, s, commas, selector);
      if Pass(sc, s).matched {
        after := ScannedReads(sc, Pass(sc, s), after, selector);
      }
    }
  }

  ghost predicate AllFilled(groups: seq<Group>)
  {
    forall i | 0 <= i < |groups| :: groups[i] != []
  }

  /** All groups but the last are filled, and that one too once something matched. */
  ghost predicate Filled(s: Scan)
  {
    s.groups != [] && AllFilled(s.groups[..|s.groups| - 1]) && (s.matched ==> AllFilled(s.groups))
  }

  lemma {:induction false} TakeFiltersFills(sc: Scanners, s: Scan, i: nat)
    requires Sound(sc) && i <= |sc.filters| && Filled(s)
    ensures Filled(TakeFilters(sc, s, i))
    ensures var r := TakeFilters(sc, s, i); !r.matched ==> !s.matched && r.soFar == s.soFar
    decreases |sc.filters| - i
  {
    if i < |sc.filters| {
      TakeFiltersFills(sc, Take(s, sc.filters[i](s.soFar)), i + 1);
    }
  }

  lemma {:induction false} ScannedFills(sc: Scanners, s: Scan)
    requires Sound(sc) && (s.matched ==> s.groups != []) && AllFilled(s.groups)
    ensures Scanned(sc, s).soFar == "" ==> AllFilled(Scanned(sc, s).groups)
    ensures s.groups != [] || s.soFar != "" ==> Scanned(sc, s).groups != []
    decreases |s.soFar|
  {
    if s.soFar != "" {
      var c := TakeComma(sc, s);
      assert c.groups[..|c.groups| - 1] == if |c.groups| > |s.groups| then s.groups else s.groups[..|s.groups| - 1];
      TakeFiltersFills(sc, Take(c, sc.combinator(c.soFar)), 0);
      if Pass(sc, s).matched {
        ScannedFills(sc, Pass(sc, s));
      }
    }
  }

  /**
   A selector that is accepted is spelled by its tokens, commas between the groups; no group is
   empty, and only the empty selector has none.
   */
  lemma TokensSpellTheSelector(sc: Scanners, selector: string) returns (commas: seq<string>)
    requires Sound(sc) && Groups(sc, selector).Some?
    ensures
      var groups := Groups(sc, selector).value;
      |commas| == |groups| && Spelled(groups, commas) == selector && (commas != [] ==> commas[0] == "") &&
      AllFilled(groups) && (selector != "" ==> groups != []) &&
      (|groups| == 1 ==> ToSelector(groups[0]) == selector)
  {
    var start := Scan([], selector, false);
    commas := ScannedReads(sc, start, [], selector);
    ScannedFills(sc, start);
    var groups := Scanned(sc, start).groups;
    assert Spelled(groups, commas) + "" == Spelled(groups, commas);
    if |groups| == 1 {
      assert Spelled(groups, commas) == "" + "" + ToSelector(groups[0]);
    }
  }

  // ---------- tokens are what the scanners read ----------

  /** What is read one after the other: the start of a group, or a token. */
  datatype Piece = Separator(text: string) | Read(token: Token)

  function TextOf(p: Piece): string
  {
    match p
    case Separator(text) => text
    case Read(token) => token.value
  }

  /** Some scanner answers with this token at the start of `text`. */
  ghost predicate IsHit(sc: Scanners, token: Token, text: string)
  {
    var hit := Some(Hit(|token.value|, token.kind, token.first));
    token.value != "" && token.value <= text &&
    (sc.combinator(text) == hit || exists i :: 0 <= i < |sc.filters| && sc.filters[i](text) == hit)
  }

  /** The first group starts with nothing, others directly behind a token with a comma; one at the end is not consumed. */
  predicate IsSeparator(sc: Scanners, before: seq<Piece>, comma: string, text: string)
  {
    if before == [] then comma == ""
    else
      before[|before| - 1].Read? && sc.comma(text) > 0 &&
      if sc.comma(text) < |text| then comma <= text && |comma| == sc.comma(text) else comma == ""
  }

  /** `selector` was read as `pieces`, and `soFar` is left. */
  ghost predicate Lexes(sc: Scanners, pieces: seq<Piece>, selector: string, soFar: string)
    decreases |pieces|
  {
    if pieces == [] then selector == soFar
    else
      var last := pieces[|pieces| - 1];
      var before := pieces[..|pieces| - 1];
      var text := TextOf(last) + soFar;
      Lexes(sc, before, selector, text) &&
      match last
      case Separator(comma) => IsSeparator(sc, before, comma, text)
      case Read(token) => before != [] && IsHit(sc, token, text)
  }

  /** The tokens between separators. */
  function GroupsOf(pieces: seq<Piece>): seq<Group>
    decreases |pieces|
  {
    if pieces == [] then []
    else
      var groups := GroupsOf(pieces[..|pieces| - 1]);
      match pieces[|pieces| - 1]
      case Separator(_) => groups + [[]]
      case Read(token) => if groups == [] then [] else Push(groups, token)
  }

  /** No scanner reads anything there. */
  ghost predicate Stuck(sc: Scanners, text: string)
  {
    text != "" && sc.combinator(text).None? && forall i | 0 <= i < |sc.filters| :: sc.filters[i](text).None?
  }

  ghost predicate ReadAs(sc: Scanners, pieces: seq<Piece>, selector: string, s: Scan)
  {
    Lexes(sc, pieces, selector, s.soFar) && GroupsOf(pieces) == s.groups &&
    (s.matched ==> pieces != [] && pieces[|pieces| - 1].Read?) && (pieces == [] <==> s.groups == [])
  }

  lemma OnePieceMore(sc: Scanners, pieces: seq<Piece>, p: Piece, selector: string, soFar: string)
    requires Lexes(sc, pieces, selector, TextOf(p) + soFar)
    requires if p.Separator? then IsSeparator(sc, pieces, p.text, TextOf(p) + soFar)
             else pieces != [] && IsHit(sc, p.token, TextOf(p) + soFar)
    ensures Lexes(sc, pieces + [p], selector, soFar)
    ensures GroupsOf(pieces + [p]) ==
      if p.Separator? then GroupsOf(pieces) + [[]] else if GroupsOf(pieces) == [] then [] else Push(GroupsOf(pieces), p.token)
  {
    assert (pieces + [p])[..|pieces|] == pieces;
  }

  lemma TakeIsRead(sc: Scanners, s: Scan, hit: Option<Hit>, pieces: seq<Piece>, selector: string)
    returns (after: seq<Piece>)
    requires s.groups != [] && Matches(hit, s.soFar) && ReadAs(sc, pieces, selector, s)
    requires hit.Some? ==> sc.combinator(s.soFar) == hit || exists i :: 0 <= i < |sc.filters| && sc.filters[i](s.soFar) == hit
    ensures ReadAs(sc, after, selector, Take(s, hit))
  {
    after := pieces;
    if hit.Some? {
      var token := Token(s.soFar[..hit.value.len], hit.value.kind, hit.value.first);
      assert s.soFar == token.value + s.soFar[hit.value.len..];
      OnePieceMore(sc, pieces, Read(token), selector, s.soFar[hit.value.len..]);
      after := pieces + [Read(token)];
    }
  }

  lemma TakeCommaIsRead(sc: Scanners, s: Scan, pieces: seq<Piece>, selector: string) returns (after: seq<Piece>)
    requires Sound(sc) && ReadAs(sc, pieces, selector, s) && (!s.matched ==> s.groups == [])
    ensures ReadAs(sc, after, selector, TakeComma(sc, s)) && TakeComma(sc, s).groups != []
  {
    after := pieces;
    var c := TakeComma(sc, s);
    if |c.groups| > |s.groups| {
      var comma := s.soFar[..|s.soFar| - |c.soFar|];
      assert s.soFar == comma + c.soFar;
      OnePieceMore(sc, pieces, Separator(comma), selector, c.soFar);
      after := pieces + [Separator(comma)];
    }
  }

  /** Some scanner answers with `hit`. */
  ghost predicate Answered(sc: Scanners, hit: Option<Hit>, text: string)
  {
    Matches(hit, text) && (sc.combinator(text) == hit || exists i :: 0 <= i < |sc.filters| && sc.filters[i](text) == hit)
  }

  /** What taking a hit keeps, the loop over the filters keeps. */
  lemma {:induction false} FiltersKeep(sc: Scanners, s: Scan, i: nat, holds: Scan -> bool)
    requires Sound(sc) && i <= |sc.filters| && s.groups != [] && holds(s)
    requires forall x: Scan, hit | x.groups != [] && holds(x) && Answered(sc, hit, x.soFar) :: holds(Take(x, hit))
    ensures holds(TakeFilters(sc, s, i))
    ensures !TakeFilters(sc, s, i).matched ==>
      !s.matched && TakeFilters(sc, s, i).soFar == s.soFar && forall j | i <= j < |sc.filters| :: sc.filters[j](s.soFar).None?
    decreases |sc.filters| - i
  {
    if i < |sc.filters| {
      assert Answered(sc, sc.filters[i](s.soFar), s.soFar);
      FiltersKeep(sc, Take(s, sc.filters[i](s.soFar)), i + 1, holds);
    }
  }

  /** So does the whole loop of what a comma and a hit keep. */
  lemma PassKeeps(sc: Scanners, s: Scan, holds: Scan -> bool)
    requires Sound(sc) && (s.matched ==> s.groups != []) && holds(TakeComma(sc, s))
    requires forall x: Scan, hit | x.groups != [] && holds(x) && Answered(sc, hit, x.soFar) :: holds(Take(x, hit))
    ensures holds(Pass(sc, s))
    ensures !Pass(sc, s).matched ==> Pass(sc, s).soFar == "" || Stuck(sc, Pass(sc, s).soFar)
  {
    var c := TakeComma(sc, s);
    assert Answered(sc, sc.combinator(c.soFar), c.soFar);
    FiltersKeep(sc, Take(c, sc.combinator(c.soFar)), 0, holds);
  }

  ghost predicate IsReading(sc: Scanners, selector: string, s: Scan)
  {
    exists pieces :: ReadAs(sc, pieces, selector, s)
  }

  lemma PassIsRead(sc: Scanners, s: Scan, selector: string)
    requires Sound(sc) && IsReading(sc, selector, s) && (s.matched <==> s.groups != [])
    ensures IsReading(sc, selector, Pass(sc, s))
    ensures !Pass(sc, s).matched ==> Pass(sc, s).soFar == "" || Stuck(sc, Pass(sc, s).soFar)
  {
    CommaIsReading(sc, s, selector);
    forall x: Scan, hit: Option<Hit> | x.groups != [] && IsReading(sc, selector, x) && Answered(sc, hit, x.soFar)
      ensures IsReading(sc, selector, Take(x, hit))
    {
      TakeIsReading(sc, x, hit, selector);
    }
    PassKeeps(sc, s, (x: Scan) => IsReading(sc, selector, x));
  }

  lemma CommaIsReading(sc: Scanners, s: Scan, selector: string)
    requires Sound(sc) && IsReading(sc, selector, s) && (!s.matched ==> s.groups == [])
    ensures IsReading(sc, selector, TakeComma(sc, s))
  {
    var pieces :| ReadAs(sc, pieces, selector, s);
    var after := TakeCommaIsRead(sc, s, pieces, selector);
  }

  lemma TakeIsReading(sc: Scanners, s: Scan, hit: Option<Hit>, selector: string)
    requires s.groups != [] && Answered(sc, hit, s.soFar) && IsReading(sc, selector, s)
    ensures IsReading(sc, selector, Take(s, hit))
  {
    var pieces :| ReadAs(sc, pieces, selector, s);
    var after := TakeIsRead(sc, s, hit, pieces, selector);
  }

  lemma {:induction false} ScannedIsRead(sc: Scanners, s: Scan, selector: string)
    requires Sound(sc) && IsReading(sc, selector, s) && (s.matched <==> s.groups != [])
    ensures IsReading(sc, selector, Scanned(sc, s))
    ensures Scanned(sc, s).soFar == "" || Stuck(sc, Scanned(sc, s).soFar)
    decreases |s.soFar|
  {
    if s.soFar != "" {
      PassIsRead(sc, s, selector);
      if Pass(sc, s).matched {
        ScannedIsRead(sc, Pass(sc, s), selector);
      }
    }
  }

  /**
   Main result: the groups of an accepted selector are the tokens the scanners answer with, read
   one behind the other from the whole text and parted by what the comma pattern matches; a
   selector is rejected only where no scanner reads on.
   */
  lemma TokensAreWhatIsRead(sc: Scanners, selector: string) returns (pieces: seq<Piece>, soFar: string)
    requires Sound(sc)
    ensures Lexes(sc, pieces, selector, soFar)
    ensures if Groups(sc, selector).Some? then soFar == "" && Groups(sc, selector).value == GroupsOf(pieces)
            else Stuck(sc, soFar)
  {
    var start := Scan([], selector, false);
    assert ReadAs(sc, [], selector, start);
    ScannedIsRead(sc, start, selector);
    pieces :| ReadAs(sc, pieces, selector, Scanned(sc, start));
    soFar := Scanned(sc, start).soFar;
  }

  /** So no token is empty. */
  lemma {:induction false} TokensHaveText(sc: Scanners, pieces: seq<Piece>, selector: string, soFar: string)
    requires Lexes(sc, pieces, selector, soFar)
    ensures forall i, j | 0 <= i < |GroupsOf(pieces)| && 0 <= j < |GroupsOf(pieces)[i]| :: GroupsOf(pieces)[i][j].value != ""
    decreases |pieces|
  {
    if pieces != [] {
      TokensHaveText(sc, pieces[..|pieces| - 1], selector, TextOf(pieces[|pieces| - 1]) + soFar);
    }
  }
}
