/** What the Java library does to text, for characters of ASCII. */
module JavaText {

  function LowerChar(c: char): char
  {
    if 'A' <= c <= 'Z' then c - 'A' + 'a' else c
  }

  function ToLowerCase(s: string): string
  {
    seq(|s|, i requires 0 <= i < |s| => LowerChar(s[i]))
  }

  function Trim(s: string): string
  {
    if s == "" then ""
    else if s[0] <= ' ' then Trim(s[1..])
    else if s[|s| - 1] <= ' ' then Trim(s[..|s| - 1])
    else s
  }

  /** The same letter, one of them perhaps a capital. */
  predicate SameLetter(x: char, y: char)
  {
    x == y || ('A' <= x <= 'Z' && y as int == x as int + 32) || ('A' <= y <= 'Z' && x as int == y as int + 32)
  }

  predicate SameButForCase(a: string, b: string)
  {
    |a| == |b| && forall i | 0 <= i < |a| :: SameLetter(a[i], b[i])
  }

  lemma LowerIff(a: string, b: string)
    ensures ToLowerCase(a) == ToLowerCase(b) <==> SameButForCase(a, b)
  {
    var low := ToLowerCase(a);
    assert |low| == |a| && forall i | 0 <= i < |a| :: low[i] == LowerChar(a[i]);
    if low == ToLowerCase(b) {
      forall i | 0 <= i < |a| ensures SameLetter(a[i], b[i]) {
        assert LowerChar(a[i]) == low[i] == LowerChar(b[i]);
      }
    }
  }

  lemma {:induction false} TrimLowers(s: string)
    ensures Trim(ToLowerCase(s)) == ToLowerCase(Trim(s))
    decreases |s|
  {
    if s != "" {
      var low := ToLowerCase(s);
      if s[0] <= ' ' {
        TrimLowers(s[1..]);
        assert low[1..] == ToLowerCase(s[1..]);
      } else if s[|s| - 1] <= ' ' {
        TrimLowers(s[..|s| - 1]);
        assert low[..|s| - 1] == ToLowerCase(s[..|s| - 1]);
      }
    }
  }

  predicate Blank(s: string)
  {
    forall i | 0 <= i < |s| :: s[i] <= ' '
  }

  lemma {:induction false} TrimAround(before: string, s: string, after: string)
    requires Blank(before) && Blank(after)
    ensures Trim(before + s + after) == Trim(s)
    decreases |before| + |after|
  {
    var text := before + s + after;
    if before != "" {
      TrimAround(before[1..], s, after);
      assert text == [before[0]] + (before[1..] + s + after);
    } else if after != "" {
      var last := |after| - 1;
      TrimAround("", s, after[..last]);
      TrimLast(s + after[..last], after[last]);
      assert text == s + after[..last] + [after[last]];
      assert "" + s + after[..last] == s + after[..last];
    } else {
      assert text == s;
    }
  }

  lemma {:induction false} TrimLast(s: string, c: char)
    requires c <= ' '
    ensures Trim(s + [c]) == Trim(s)
  {
    if s == "" {
      assert s + [c] == [c];
    } else if s[0] <= ' ' {
      TrimLast(s[1..], c);
      assert (s + [c])[1..] == s[1..] + [c];
    } else {
      assert (s + [c])[..|s|] == s;
    }
  }

  /** `part` is the text from place i to place j, and there are only blanks around it. */
  predicate IsBetween(s: string, i: nat, j: nat, part: string)
  {
    i <= j <= |s| && part == s[i..j] && Blank(s[..i]) && Blank(s[j..])
  }

  lemma BetweenBehind(s: string, i: nat, j: nat, part: string)
    requires s != "" && s[0] <= ' ' && IsBetween(s[1..], i, j, part)
    ensures IsBetween(s, i + 1, j + 1, part)
  {
    assert s[1..][i..j] == s[i + 1..j + 1];
    var front, back := s[..i + 1], s[j + 1..];
    forall k | 0 <= k < |front| ensures front[k] <= ' ' {
      if k > 0 {
        assert s[1..][..i][k - 1] == s[k];
      }
    }
    forall k | 0 <= k < |back| ensures back[k] <= ' ' {
      assert s[1..][j..][k] == s[j + 1 + k];
    }
  }

  lemma BetweenBefore(s: string, i: nat, j: nat, part: string)
    requires s != "" && s[|s| - 1] <= ' ' && IsBetween(s[..|s| - 1], i, j, part)
    ensures IsBetween(s, i, j, part)
  {
    var init := s[..|s| - 1];
    assert s[j..] == init[j..] + [s[|s| - 1]];
    assert init[..i] == s[..i];
  }

  /** What is left is the text from its first to its last character that is no blank. */
  lemma {:induction false} TrimIsBetween(s: string) returns (i: nat, j: nat)
    ensures IsBetween(s, i, j, Trim(s)) && Trimmed(Trim(s))
    decreases |s|
  {
    if s == "" {
      i, j := 0, 0;
    } else if s[0] <= ' ' {
      i, j := TrimIsBetween(s[1..]);
      BetweenBehind(s, i, j, Trim(s));
      i, j := i + 1, j + 1;
    } else if s[|s| - 1] <= ' ' {
      i, j := TrimIsBetween(s[..|s| - 1]);
      BetweenBefore(s, i, j, Trim(s));
    } else {
      i, j := 0, |s|;
      assert s[0..|s|] == s;
    }
  }

  /** `replace( "\n", " " ).replace( "\r", " " ).trim()` */
  function OneLine(s: string): string
  {
    Trim(seq(|s|, i requires 0 <= i < |s| => if s[i] == '\n' || s[i] == '\r' then ' ' else s[i]))
  }

  predicate NoBreaks(s: string)
  {
    '\n' !in s && '\r' !in s
  }

  predicate Trimmed(s: string)
  {
    s == "" || (s[0] > ' ' && s[|s| - 1] > ' ')
  }

  lemma {:induction false} TrimIsTrimmed(s: string)
    ensures Trimmed(Trim(s)) && forall c | c in Trim(s) :: c in s
    decreases |s|
  {
    if s == "" {
    } else if s[0] <= ' ' {
      TrimIsTrimmed(s[1..]);
    } else if s[|s| - 1] <= ' ' {
      TrimIsTrimmed(s[..|s| - 1]);
    }
  }

  /** A text that has been through it comes out of it unchanged. */
  lemma OneLineIsIdempotent(s: string)
    ensures OneLine(OneLine(s)) == OneLine(s)
  {
    var t := seq(|s|, i requires 0 <= i < |s| => if s[i] == '\n' || s[i] == '\r' then ' ' else s[i]);
    TrimIsTrimmed(t);
    var once := Trim(t);
    forall i | 0 <= i < |once| ensures once[i] != '\n' && once[i] != '\r' {
      assert once[i] in t;
    }
    assert seq(|once|, i requires 0 <= i < |once| => if once[i] == '\n' || once[i] == '\r' then ' ' else once[i]) == once;
  }

  lemma {:induction false} TrimIsEmptyIff(s: string)
    ensures Trim(s) == "" <==> Blank(s)
    decreases |s|
  {
    if s == "" {
    } else if s[0] <= ' ' {
      TrimIsEmptyIff(s[1..]);
      assert Blank(s[1..]) ==> Blank(s) by {
        assert forall i | 1 <= i < |s| :: s[i] == s[1..][i - 1];
      }
    } else if s[|s| - 1] <= ' ' {
      TrimIsEmptyIff(s[..|s| - 1]);
      assert s[..|s| - 1][0] == s[0];
    }
  }

  /** Line breaks become blanks, and blanks at the ends go. */
  lemma OneLineIsBetween(s: string) returns (i: nat, j: nat)
    ensures i <= j <= |s| && |OneLine(s)| == j - i && Blank(s[..i]) && Blank(s[j..]) && Trimmed(OneLine(s))
    ensures forall k | i <= k < j :: OneLine(s)[k - i] == if s[k] == '\n' || s[k] == '\r' then ' ' else s[k]
  {
    var t := seq(|s|, i requires 0 <= i < |s| => if s[i] == '\n' || s[i] == '\r' then ' ' else s[i]);
    i, j := TrimIsBetween(t);
    forall k | 0 <= k < i ensures s[..i][k] <= ' ' {
      assert t[..i][k] == t[k];
    }
    forall k | 0 <= k < |s| - j ensures s[j..][k] <= ' ' {
      assert t[j..][k] == t[j + k];
    }
  }

  predicate IsOneLine(s: string)
  {
    NoBreaks(s) && Trimmed(s)
  }

  /** What it leaves alone are the lines without blanks around them. */
  lemma OneLineKeepsIff(s: string)
    ensures OneLine(s) == s <==> IsOneLine(s)
  {
    var t := seq(|s|, i requires 0 <= i < |s| => if s[i] == '\n' || s[i] == '\r' then ' ' else s[i]);
    TrimIsTrimmed(t);
    if OneLine(s) == s {
      assert '\n' !in t && '\r' !in t;
    }
    if IsOneLine(s) {
      assert t == s;
    }
  }
}
