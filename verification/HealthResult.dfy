/**
 The result of a health check, `health/Result`: its message carries a type, a host and a port,
 which are parsed back out of it.  They come back exactly if the host is free of the delimiter.
 */
module HealthResult {
  import opened Decimal
  import opened JavaText
  import opened Wrappers

  datatype HealthCheckType = INFLUXDB | INTRACE | GRAFANA

  const DELIMITER := '~'
  const UNINIT := -1

  function TypeName(t: HealthCheckType): string
  {
    match t
    case INFLUXDB => "INFLUXDB"
    case INTRACE => "INTRACE"
    case GRAFANA => "GRAFANA"
  }

  function ValueOf(name: string): Option<HealthCheckType>
  {
    if name == "INFLUXDB" then Some(INFLUXDB)
    else if name == "INTRACE" then Some(INTRACE)
    else if name == "GRAFANA" then Some(GRAFANA)
    else None
  }

  // ---------- splitting and joining ----------

  /** All pieces between delimiters. */
  function Pieces(s: string): (ps: seq<string>)
    ensures ps != []
  {
    if s == "" then [""]
    else if s[0] == DELIMITER then [""] + Pieces(s[1..])
    else
      var rest := Pieces(s[1..]);
      [[s[0]] + rest[0]] + rest[1..]
  }

  function DropTrailingEmpty(ps: seq<string>): seq<string>
  {
    if ps != [] && ps[|ps| - 1] == "" then DropTrailingEmpty(ps[..|ps| - 1]) else ps
  }

  /** `split`: trailing empty pieces go, unless there was no delimiter at all. */
  function Split(s: string): seq<string>
  {
    if |Pieces(s)| == 1 then Pieces(s) else DropTrailingEmpty(Pieces(s))
  }

  function Format(t: HealthCheckType, host: string, port: int): string
  {
    TypeName(t) + [DELIMITER] + host + [DELIMITER] + Print(port)
  }

  lemma {:induction false} PiecesOfPlain(s: string)
    requires DELIMITER !in s
    ensures Pieces(s) == [s]
  {
    if s != "" {
      PiecesOfPlain(s[1..]);
      assert s == [s[0]] + s[1..];
    }
  }

  /** `c` goes to the first of the pieces, or delimits it. */
  function Prepend(c: char, ps: seq<string>): seq<string>
    requires ps != []
  {
    if c == DELIMITER then [""] + ps else [[c] + ps[0]] + ps[1..]
  }

  lemma PiecesPrepend(c: char, s: string)
    ensures Pieces([c] + s) == Prepend(c, Pieces(s))
  {
    assert ([c] + s)[1..] == s;
  }

  lemma Regroup(ps: seq<string>, qs: seq<string>, rs: seq<string>)
    ensures ps + (qs + rs) == ps + qs + rs
  {
  }

  lemma Tail(ps: seq<string>, qs: seq<string>)
    requires ps != []
    ensures (ps + qs)[1..] == ps[1..] + qs
  {
  }

  lemma PrependJoin(c: char, ps: seq<string>, qs: seq<string>)
    requires ps != []
    ensures Prepend(c, ps + qs) == Prepend(c, ps) + qs
  {
    if c == DELIMITER {
      Regroup([""], ps, qs);
    } else {
      Tail(ps, qs);
      Regroup([[c] + ps[0]], ps[1..], qs);
    }
  }

  /** A delimiter separates the pieces before it from those behind it. */
  lemma {:induction false} PiecesJoin(a: string, b: string)
    ensures Pieces(a + [DELIMITER] + b) == Pieces(a) + Pieces(b)
  {
    if a == "" {
      assert a + [DELIMITER] + b == [DELIMITER] + b;
      PiecesPrepend(DELIMITER, b);
    } else {
      var c, rest := a[0], a[1..];
      assert a == [c] + rest;
      assert a + [DELIMITER] + b == [c] + (rest + [DELIMITER] + b);
      PiecesJoin(rest, b);
      PiecesPrepend(c, rest + [DELIMITER] + b);
      PiecesPrepend(c, rest);
      PrependJoin(c, Pieces(rest), Pieces(b));
    }
  }

  lemma {:induction false} OnePieceIff(s: string)
    ensures |Pieces(s)| == 1 <==> DELIMITER !in s
  {
    if s != "" {
      OnePieceIff(s[1..]);
      assert DELIMITER in s <==> s[0] == DELIMITER || DELIMITER in s[1..];
    }
  }

  lemma FormatPieces(t: HealthCheckType, host: string, port: int)
    ensures Split(Format(t, host, port)) == [TypeName(t)] + Pieces(host) + [Print(port)]
  {
    PiecesOfPlain(TypeName(t));
    PiecesOfPlain(Print(port));
    PiecesJoin(TypeName(t) + [DELIMITER] + host, Print(port));
    PiecesJoin(TypeName(t), host);
    var ps := [TypeName(t)] + Pieces(host) + [Print(port)];
    assert Pieces(Format(t, host, port)) == ps;
    assert ps[|ps| - 1] == Print(port);
  }

  // ---------- the result ----------

  /** What the constructor makes of a message: fields left alone, fields set, or an exception. */
  datatype Parsed = Untouched | Fields(t: HealthCheckType, host: string, port: int) | BadType | BadPort

  function ParseMessage(message: Option<string>): Parsed
  {
    if message.None? || Trim(message.value) == "" then Untouched
    else
      var args := Split(message.value);
      if |args| != 3 then Untouched
      else if ValueOf(args[0]).None? then BadType
      else if ParseInt(args[2]).None? then BadPort
      else Fields(ValueOf(args[0]).value, args[1], ParseInt(args[2]).value)
  }

  /** Type, host and port come back exactly if the host holds no delimiter; otherwise nothing is set. */
  lemma FormatParsesBackIff(t: HealthCheckType, host: string, port: int)
    requires IsInt(port)
    ensures ParseMessage(Some(Format(t, host, port))) == Fields(t, host, port) <==> DELIMITER !in host
    ensures DELIMITER in host ==> ParseMessage(Some(Format(t, host, port))) == Untouched
  {
    var message := Format(t, host, port);
    FormatPieces(t, host, port);
    OnePieceIff(host);
    if DELIMITER !in host {
      PiecesOfPlain(host);
      assert Split(message) == [TypeName(t), host, Print(port)];
      ParsePrint(port, INT_MIN, INT_MAX);
    }
  }

  // ---------- which messages are parsed ----------

  function Delimiters(k: nat): string
  {
    seq(k, _ => DELIMITER)
  }

  /** The pieces with delimiters between them. */
  function Joined(ps: seq<string>): string
  {
    if ps == [] then "" else if |ps| == 1 then ps[0] else ps[0] + [DELIMITER] + Joined(ps[1..])
  }

  lemma {:induction false} PiecesRejoin(s: string)
    ensures Joined(Pieces(s)) == s && forall k | 0 <= k < |Pieces(s)| :: DELIMITER !in Pieces(s)[k]
  {
    if s != "" {
      var rest := Pieces(s[1..]);
      PiecesRejoin(s[1..]);
      assert s == [s[0]] + s[1..];
      if s[0] == DELIMITER {
        assert Pieces(s)[1..] == rest;
      } else {
        assert Pieces(s)[1..] == rest[1..];
        assert |rest| > 1 ==> [s[0]] + (rest[0] + [DELIMITER] + Joined(rest[1..])) == Pieces(s)[0] + [DELIMITER] + Joined(rest[1..]);
      }
    }
  }

  lemma {:induction false} DroppedAreEmpty(ps: seq<string>)
    ensures DropTrailingEmpty(ps) <= ps
    ensures forall k | |DropTrailingEmpty(ps)| <= k < |ps| :: ps[k] == ""
    ensures DropTrailingEmpty(ps) != [] ==> DropTrailingEmpty(ps)[|DropTrailingEmpty(ps)| - 1] != ""
  {
    if ps != [] && ps[|ps| - 1] == "" {
      DroppedAreEmpty(ps[..|ps| - 1]);
    }
  }

  lemma {:induction false} JoinedEmpties(ps: seq<string>)
    requires ps != [] && forall k | 0 < k < |ps| :: ps[k] == ""
    ensures Joined(ps) == ps[0] + Delimiters(|ps| - 1)
  {
    if |ps| > 1 {
      JoinedEmpties(ps[1..]);
      assert [DELIMITER] + ("" + Delimiters(|ps| - 2)) == Delimiters(|ps| - 1);
    }
  }

  /** The message is a type, a host and a third piece, with any number of delimiters behind. */
  predicate IsMessage(s: string, t: HealthCheckType, host: string, third: string, k: nat)
  {
    s == TypeName(t) + [DELIMITER] + host + [DELIMITER] + third + Delimiters(k) &&
    DELIMITER !in host && DELIMITER !in third && third != ""
  }

  lemma {:induction false} DropAll(ps: seq<string>, k: nat)
    requires ps != [] && ps[|ps| - 1] != ""
    ensures DropTrailingEmpty(ps + seq(k, _ => "")) == ps
    decreases k
  {
    var all := ps + seq(k, _ => "");
    if k > 0 {
      DropAll(ps, k - 1);
      assert all[..|all| - 1] == ps + seq(k - 1, _ => "");
    } else {
      assert all == ps;
    }
  }

  lemma {:induction false} PiecesOfDelimiters(k: nat)
    ensures Pieces(Delimiters(k)) == seq(k + 1, _ => "")
  {
    if k > 0 {
      PiecesOfDelimiters(k - 1);
      assert Delimiters(k)[1..] == Delimiters(k - 1);
      assert [""] + seq(k, _ => "") == seq(k + 1, _ => "");
    }
  }

  lemma SplitOfMessage(s: string, t: HealthCheckType, host: string, third: string, k: nat)
    requires IsMessage(s, t, host, third, k)
    ensures Split(s) == [TypeName(t), host, third]
  {
    var name := TypeName(t);
    PiecesOfPlain(name);
    PiecesOfPlain(host);
    PiecesOfPlain(third);
    PiecesJoin(name, host);
    PiecesJoin(name + [DELIMITER] + host, third);
    var text := name + [DELIMITER] + host + [DELIMITER] + third;
    assert Pieces(text) == [name, host, third];
    if k == 0 {
      assert s == text;
    } else {
      assert s == text + [DELIMITER] + Delimiters(k - 1) by {
        assert Delimiters(k) == [DELIMITER] + Delimiters(k - 1);
      }
      PiecesJoin(text, Delimiters(k - 1));
      PiecesOfDelimiters(k - 1);
    }
    DropAll([name, host, third], k);
    assert Pieces(s) == [name, host, third] + seq(k, _ => "");
  }

  lemma MessageOfSplit(s: string, t: HealthCheckType, host: string, third: string)
    requires Split(s) == [TypeName(t), host, third]
    ensures exists k: nat :: IsMessage(s, t, host, third, k)
  {
    var ps := Pieces(s);
    PiecesRejoin(s);
    DroppedAreEmpty(ps);
    assert ps[0] == TypeName(t) && ps[1] == host && ps[2] == third;
    JoinedEmpties(ps[2..]);
    assert ps[1..][1..] == ps[2..];
    assert Joined(ps) == ps[0] + [DELIMITER] + (ps[1] + [DELIMITER] + Joined(ps[2..]));
    assert s == TypeName(t) + [DELIMITER] + host + [DELIMITER] + third + Delimiters(|ps| - 3);
    assert IsMessage(s, t, host, third, |ps| - 3);
  }

  /**
   The fields are set exactly by messages of a known type, a host without delimiters, and a number,
   with any number of delimiters behind.
   */
  lemma FieldsIff(s: string, t: HealthCheckType, host: string, port: int)
    ensures ParseMessage(Some(s)) == Fields(t, host, port) <==>
      exists third, k: nat :: IsMessage(s, t, host, third, k) && ParseInt(third) == Some(port)
  {
    if third, k: nat :| IsMessage(s, t, host, third, k) && ParseInt(third) == Some(port) {
      SplitOfMessage(s, t, host, third, k);
      NotBlank(s, t);
    }
    if ParseMessage(Some(s)) == Fields(t, host, port) {
      var third := Split(s)[2];
      assert Split(s) == [TypeName(t), host, third];
      MessageOfSplit(s, t, host, third);
    }
  }

  lemma NotBlank(s: string, t: HealthCheckType)
    requires TypeName(t) <= s
    ensures Trim(s) != ""
  {
    assert s[0] == TypeName(t)[0] > ' ';
    TrimIsEmptyIff(s);
  }

  class Result {
    const healthy: bool
    const message: Option<string>
    var host: Option<string>
    var port: int
    var myType: Option<HealthCheckType>

    /** The constructor up to the parsing of the message. */
    constructor (isHealthy: bool, message: Option<string>)
      ensures this.healthy == isHealthy && this.message == message
      ensures host == None && port == UNINIT && myType == None
    {
      this.healthy, this.message := isHealthy, message;
      host, port, myType := None, UNINIT, None;
    }

    /** The rest of the constructor; false stands for an exception, which leaves no object. */
    method Parse() returns (ok: bool)
      requires host == None && port == UNINIT && myType == None
      modifies this
      ensures ok <==> ParseMessage(message) != BadType && ParseMessage(message) != BadPort
      ensures ok ==>
        match ParseMessage(message)
        case Fields(t, h, p) => myType == Some(t) && host == Some(h) && port == p
        case _ => myType == None && host == None && port == UNINIT
    {
      if message.Some? && |Trim(message.value)| != 0 {
        var args := Split(message.value);
        if |args| == 3 {
          myType := ValueOf(args[0]);
          if myType.None? {
            return false;
          }
          host := Some(args[1]);
          var n := ParseInt(args[2]);
          if n.None? {
            return false;
          }
          port := n.value;
        }
      }
      ok := true;
    }

    /** A result made from a formatted message. */
    static method Unhealthy(t: HealthCheckType, hostName: string, hostPort: int) returns (r: Result, ok: bool)
      requires IsInt(hostPort)
      ensures fresh(r) && ok && !r.healthy
      ensures DELIMITER !in hostName ==> r.myType == Some(t) && r.host == Some(hostName) && r.port == hostPort
      ensures DELIMITER in hostName ==> r.myType == None && r.host == None && r.port == UNINIT
    {
      FormatParsesBackIff(t, hostName, hostPort);
      r := new Result(false, Some(Format(t, hostName, hostPort)));
      ok := r.Parse();
    }
  }
}
