/**
 * The java.lang.String and java.lang.Integer operations the whiteboard code relies on:
 * decimal printing and parsing of ints, indexOf on characters, split(" "), trim(),
 * and joining words with single spaces (the loop shared by Whiteboard.getUsernames and
 * WhiteboardServer.getAllWhiteboards).
 */
module Text {
  import opened Wrappers

  // ---------------------------------------------------------------- decimal numbers

  /** Range of a Java int. */
  const IntMin: int := -0x8000_0000
  const IntMax: int := 0x7fff_ffff

  predicate IsDigit(c: char) { '0' <= c <= '9' }

  predicate AllDigits(s: string) { forall i :: 0 <= i < |s| ==> IsDigit(s[i]) }

  function DigitChar(d: nat): (c: char)
    requires d < 10
    ensures IsDigit(c) && c as int - '0' as int == d
  {
    (48 + d) as char
  }

  /** The value of a string of decimal digits, most significant first. */
  function DigitsValue(s: string): nat
    requires AllDigits(s)
  {
    if s == [] then 0 else DigitsValue(s[..|s| - 1]) * 10 + (s[|s| - 1] as int - '0' as int)
  }

  /** Decimal text of a natural number, without leading zeros. */
  function NatToString(n: nat): (s: string)
    ensures |s| > 0 && AllDigits(s)
    ensures s[0] == '0' ==> n == 0
  {
    if n < 10 then [DigitChar(n)] else NatToString(n / 10) + [DigitChar(n % 10)]
  }

  /** The decimal text Java produces when an int is concatenated to a string. */
  function IntToString(n: int): (s: string)
    ensures |s| > 0 && ' ' !in s
  {
    if n < 0 then "-" + NatToString(-n) else NatToString(n)
  }

  /**
   * Integer.parseInt on ASCII text: an optional sign followed by at least one digit,
   * whose value fits in an int; None stands for the NumberFormatException.
   */
  function ParseInt(s: string): (r: Option<int>)
    ensures r.Some? ==> IntMin <= r.value <= IntMax
  {
    if |s| > 0 && (s[0] == '-' || s[0] == '+') then
      var body := s[1..];
      if body != [] && AllDigits(body) then
        var v: int := if s[0] == '-' then -(DigitsValue(body) as int) else DigitsValue(body);
        if IntMin <= v <= IntMax then Some(v) else None
      else None
    else if s != [] && AllDigits(s) && DigitsValue(s) <= IntMax then Some(DigitsValue(s))
    else None
  }

  lemma {:induction false} NatToStringValue(n: nat)
    ensures DigitsValue(NatToString(n)) == n
  {
    if n >= 10 {
      var s := NatToString(n);
      assert s[..|s| - 1] == NatToString(n / 10);
      NatToStringValue(n / 10);
    }
  }

  /** Printing an int and parsing it back gives the same int. */
  lemma ParseIntToString(n: int)
    requires IntMin <= n <= IntMax
    ensures ParseInt(IntToString(n)) == Some(n)
  {
    if n < 0 {
      NatToStringValue(-n);
      assert IntToString(n)[1..] == NatToString(-n);
    } else {
      NatToStringValue(n);
    }
  }

  // ---------------------------------------------------------------- searching

  /** String.indexOf(c, from): the first position at or after from holding c, or -1. */
  function IndexOfFrom(s: string, c: char, from: nat): (r: int)
    ensures r == -1 <==> forall k :: from <= k < |s| ==> s[k] != c
    ensures r != -1 ==> from <= r < |s| && s[r] == c && forall k :: from <= k < r ==> s[k] != c
    decreases |s| - from
  {
    if from >= |s| then -1 else if s[from] == c then from else IndexOfFrom(s, c, from + 1)
  }

  /** String.indexOf(c). */
  function IndexOf(s: string, c: char): (r: int)
    ensures r == -1 <==> c !in s
    ensures r != -1 ==> 0 <= r < |s| && s[r] == c && c !in s[..r]
  {
    var r := IndexOfFrom(s, c, 0);
    assert r != -1 ==> forall k :: 0 <= k < r ==> s[..r][k] != c;
    r
  }

  // ---------------------------------------------------------------- joining and splitting

  /** The words separated by single spaces, with no leading or trailing space. */
  function Join(words: seq<string>): string
  {
    if |words| == 0 then "" else if |words| == 1 then words[0] else words[0] + " " + Join(words[1..])
  }

  /** Appending one more word: the step of the accumulating loops that build a joined string. */
  lemma {:induction false} JoinSnoc(words: seq<string>, w: string)
    requires |words| > 0
    ensures Join(words + [w]) == Join(words) + " " + w
  {
    if |words| == 1 {
      assert (words + [w])[1..] == [w];
    } else {
      assert (words + [w])[1..] == words[1..] + [w];
      JoinSnoc(words[1..], w);
    }
  }

  /** Every piece between two spaces, empty ones included. */
  function Pieces(s: string): (p: seq<string>)
    ensures |p| > 0
    ensures forall k :: 0 <= k < |p| ==> ' ' !in p[k]
    decreases |s|
  {
    var i := IndexOf(s, ' ');
    if i == -1 then [s] else [s[..i]] + Pieces(s[i + 1..])
  }

  function DropTrailingEmpty(p: seq<string>): (q: seq<string>)
    ensures q <= p
    ensures |q| > 0 ==> q[|q| - 1] != ""
    ensures forall k :: |q| <= k < |p| ==> p[k] == ""
  {
    if |p| > 0 && p[|p| - 1] == "" then DropTrailingEmpty(p[..|p| - 1]) else p
  }

  /**
   * String.split(" "): a string with no space is its own only piece (so "" splits into [""]);
   * otherwise the pieces between spaces, with trailing empty pieces removed.
   */
  function Split(s: string): (p: seq<string>)
    ensures forall k :: 0 <= k < |p| ==> ' ' !in p[k]
    ensures |p| > 1 ==> p[|p| - 1] != ""
  {
    if ' ' !in s then [s] else DropTrailingEmpty(Pieces(s))
  }

  /** Joining the pieces with single spaces gives back the string. */
  lemma {:induction false} JoinPieces(s: string)
    ensures Join(Pieces(s)) == s
    decreases |s|
  {
    var i := IndexOf(s, ' ');
    if i != -1 {
      var head, tail := s[..i], s[i + 1..];
      JoinPieces(tail);
      JoinCons(head, Pieces(tail));
      SpaceAt(s, i);
    }
  }

  lemma JoinCons(head: string, rest: seq<string>)
    requires |rest| > 0
    ensures Join([head] + rest) == head + " " + Join(rest)
  {
    assert ([head] + rest)[1..] == rest;
  }

  lemma SpaceAt(s: string, i: nat)
    requires i < |s| && s[i] == ' '
    ensures s == s[..i] + " " + s[i + 1..]
  {
  }

  /** Words without spaces, the last one non-empty, are what splitting their join gives back. */
  lemma {:induction false} SplitJoin(words: seq<string>)
    requires |words| > 0 && words[|words| - 1] != ""
    requires forall k :: 0 <= k < |words| ==> ' ' !in words[k]
    ensures Split(Join(words)) == words
  {
    PiecesJoin(words);
    if |words| > 1 {
      assert ' ' in Join(words) by { JoinHasSpace(words); }
    }
  }

  lemma {:induction false} JoinHasSpace(words: seq<string>)
    requires |words| > 1
    ensures ' ' in Join(words)
  {
    var j := Join(words);
    assert j == words[0] + " " + Join(words[1..]);
    assert j[|words[0]|] == ' ';
  }

  lemma {:induction false} PiecesJoin(words: seq<string>)
    requires |words| > 0
    requires forall k :: 0 <= k < |words| ==> ' ' !in words[k]
    ensures Pieces(Join(words)) == words
  {
    if |words| > 1 {
      var j := Join(words);
      assert j == words[0] + " " + Join(words[1..]);
      assert j[..|words[0]|] == words[0];
      assert j[|words[0]|] == ' ';
      assert IndexOf(j, ' ') == |words[0]|;
      assert j[|words[0]| + 1..] == Join(words[1..]);
      PiecesJoin(words[1..]);
    }
  }

  // ---------------------------------------------------------------- trimming

  /** String.trim() removes every leading and trailing character up to U+0020. */
  function Trim(s: string): (r: string)
    ensures TrimmedAt(s, |s| - |TrimStart(s)|, r)
    ensures r == [] || (r[0] > ' ' && r[|r| - 1] > ' ')
  {
    var t := TrimStart(s);
    var r := TrimEnd(t);
    TrimStartEnd(s, t, r);
    r
  }

  lemma TrimStartEnd(s: string, t: string, r: string)
    requires |t| <= |s| && t == s[|s| - |t|..] && forall k :: 0 <= k < |s| - |t| ==> s[k] <= ' '
    requires |r| <= |t| && r == t[..|r|] && forall k :: |r| <= k < |t| ==> t[k] <= ' '
    ensures TrimmedAt(s, |s| - |t|, r)
  {
    var i := |s| - |t|;
    forall k | i + |r| <= k < |s| ensures s[k] <= ' ' {
      assert s[k] == t[k - i];
    }
    assert r == s[i..i + |r|];
  }

  /** r is the part of s starting at i, and everything around it is at most U+0020. */
  predicate TrimmedAt(s: string, i: int, r: string)
  {
    0 <= i <= |s| - |r| && r == s[i..i + |r|]
    && (forall k :: 0 <= k < i ==> s[k] <= ' ')
    && (forall k :: i + |r| <= k < |s| ==> s[k] <= ' ')
  }

  function TrimStart(s: string): (r: string)
    ensures |r| <= |s| && r == s[|s| - |r|..]
    ensures forall k :: 0 <= k < |s| - |r| ==> s[k] <= ' '
    ensures r == [] || r[0] > ' '
  {
    if |s| > 0 && s[0] <= ' ' then TrimStart(s[1..]) else s
  }

  function TrimEnd(s: string): (r: string)
    ensures |r| <= |s| && r == s[..|r|]
    ensures forall k :: |r| <= k < |s| ==> s[k] <= ' '
    ensures r == [] || r[|r| - 1] > ' '
  {
    if |s| > 0 && s[|s| - 1] <= ' ' then TrimEnd(s[..|s| - 1]) else s
  }

  /** Trimming text padded by one space on each side gives the text back, when it does not itself start or end with a character up to U+0020. */
  lemma TrimPadded(t: string)
    requires |t| > 0 && t[0] > ' ' && t[|t| - 1] > ' '
    ensures Trim(" " + t + " ") == t
  {
    var s := " " + t + " ";
    assert s[1..] == t + " ";
    assert TrimStart(s) == t + " ";
    assert (t + " ")[..|t|] == t;
    assert TrimEnd(t + " ") == t;
  }
}
