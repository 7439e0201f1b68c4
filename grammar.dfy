/**
 * The request grammar WhiteboardServer.handleRequest accepts, written out as a recogniser for
 * the regular expression it matches the whole input line against:
 *
 *   create T | open T T | draw T N N N N N N N N | username T | logout T | close T T | list
 *   | getUsersOnWhiteboard T | reset T
 *
 * where T is `-?.+` (one or more characters other than line terminators; the optional minus is
 * absorbed by `.+`) and N is `-?\d+` (an optional minus followed by ASCII digits), and the
 * separators are single spaces. A T may itself contain spaces.
 */
module Grammar {
  import opened Text

  /** The characters Java's `.` does not match: the line terminators. */
  predicate IsLineTerminator(c: char)
  {
    c == '\n' || c == '\r' || c == '\U{0085}' || c == '\U{2028}' || c == '\U{2029}'
  }

  /** `-?.+`: one or more characters, none a line terminator. */
  predicate IsText(s: string)
  {
    |s| > 0 && forall i :: 0 <= i < |s| ==> !IsLineTerminator(s[i])
  }

  /** `-?\d+`: an optional minus followed by one or more ASCII digits. */
  predicate IsNumeral(s: string)
  {
    if |s| > 0 && s[0] == '-' then |s| > 1 && AllDigits(s[1..]) else |s| > 0 && AllDigits(s)
  }

  /** The input starts with the keyword and one space. */
  predicate HasKeyword(input: string, keyword: string)
  {
    |input| > |keyword| && input[..|keyword|] == keyword && input[|keyword|] == ' '
  }

  /** What follows the keyword and its space. */
  function Arguments(input: string, keyword: string): string
    requires HasKeyword(input, keyword)
  {
    input[|keyword| + 1..]
  }

  /** `keyword T` */
  predicate OneText(input: string, keyword: string)
  {
    HasKeyword(input, keyword) && IsText(Arguments(input, keyword))
  }

  /** Text, space, text: the arguments of `keyword T T`. */
  predicate TwoTexts(r: string)
  {
    exists i :: 0 <= i < |r| && r[i] == ' ' && IsText(r[..i]) && IsText(r[i + 1..])
  }

  /** Text followed by n numerals, each after one space: the arguments of draw when n == 8. */
  predicate TextThenNumerals(r: string, n: nat)
    decreases |r|
  {
    if n == 0 then IsText(r)
    else exists i :: 0 <= i < |r| && r[i] == ' ' && IsNumeral(r[i + 1..]) && TextThenNumerals(r[..i], n - 1)
  }

  /** input.matches(regex) for the regular expression of handleRequest. */
  predicate Matches(input: string)
  {
    OneText(input, "create")
    || (HasKeyword(input, "open") && TwoTexts(Arguments(input, "open")))
    || (HasKeyword(input, "draw") && TextThenNumerals(Arguments(input, "draw"), 8))
    || OneText(input, "username")
    || OneText(input, "logout")
    || (HasKeyword(input, "close") && TwoTexts(Arguments(input, "close")))
    || input == "list"
    || OneText(input, "getUsersOnWhiteboard")
    || OneText(input, "reset")
  }

  /** The command names handleRequest dispatches on, in its order of tests. */
  const Commands: seq<string> := ["create", "username", "open", "logout", "close", "draw", "list", "getUsersOnWhiteboard", "reset"]

  /** Splitting a line that starts with a keyword and a space yields that keyword first. */
  lemma SplitKeyword(input: string, keyword: string)
    requires keyword != "" && ' ' !in keyword && HasKeyword(input, keyword)
    ensures |Split(input)| > 0 && Split(input)[0] == keyword
  {
    var k := |keyword|;
    assert input[k] == ' ';
    assert IndexOf(input, ' ') == k by {
      assert input[..k] == keyword;
    }
    var p := Pieces(input);
    assert p[0] == keyword;
    assert DropTrailingEmpty(p)[0] == p[0];
  }

  /**
   * Every line the grammar accepts splits into pieces whose first is one of the command names,
   * so the exception at the end of handleRequest is never thrown.
   */
  lemma MatchesDispatches(input: string)
    requires Matches(input)
    ensures |Split(input)| > 0 && Split(input)[0] in Commands
  {
    if input == "list" {
      assert ' ' !in input;
      assert Split(input) == [input];
    } else if HasKeyword(input, "create") {
      SplitKeyword(input, "create");
    } else if HasKeyword(input, "open") {
      SplitKeyword(input, "open");
    } else if HasKeyword(input, "draw") {
      SplitKeyword(input, "draw");
    } else if HasKeyword(input, "username") {
      SplitKeyword(input, "username");
    } else if HasKeyword(input, "logout") {
      SplitKeyword(input, "logout");
    } else if HasKeyword(input, "close") {
      SplitKeyword(input, "close");
    } else if HasKeyword(input, "getUsersOnWhiteboard") {
      SplitKeyword(input, "getUsersOnWhiteboard");
    } else {
      SplitKeyword(input, "reset");
    }
  }

  lemma CreateExample()
    ensures Matches("create board")
  {
    assert "create board"[..6] == "create";
    assert OneText("create board", "create");
  }

  lemma OpenExample()
    ensures Matches("open alice board")
  {
    var input := "open alice board";
    assert input[..4] == "open";
    var r := Arguments(input, "open");
    assert r == "alice board";
    assert r[..5] == "alice" && r[6..] == "board";
    assert TwoTexts(r);
  }

  /** The second text of a two-text command may hold spaces: the board name here is "my board". */
  lemma CloseExample()
    ensures Matches("close alice my board")
  {
    var input := "close alice my board";
    assert input[..5] == "close";
    var r := Arguments(input, "close");
    assert r == "alice my board";
    assert r[..5] == "alice" && r[6..] == "my board";
    assert TwoTexts(r);
  }

  lemma ListExample()
    ensures Matches("list") && !Matches("list ")
  {
    assert "list " != "list";
  }

  /** A keyword with nothing after it is rejected. */
  lemma RejectBareKeyword()
    ensures !Matches("create")
  {
  }

  /** An unknown command is rejected. */
  lemma RejectUnknown()
    ensures !Matches("hello")
  {
  }

  /** A two-text command missing one text is rejected. */
  lemma RejectMissingText()
    ensures !Matches("open board")
  {
    var r := "open board"[5..];
    assert r == "board";
    assert !TwoTexts(r);
  }

  /** One more numeral after a space: t is r, a space and m. */
  lemma MoreNumerals(r: string, n: nat, m: string, t: string)
    requires TextThenNumerals(r, n) && IsNumeral(m) && t == r + " " + m
    ensures TextThenNumerals(t, n + 1)
  {
    assert t[|r|] == ' ' && t[..|r|] == r && t[|r| + 1..] == m;
  }

  /** A text joined by single spaces to numerals is what the draw arguments are made of. */
  lemma {:induction false} JoinedNumerals(words: seq<string>)
    requires |words| > 0 && IsText(words[0])
    requires forall k :: 1 <= k < |words| ==> IsNumeral(words[k])
    ensures TextThenNumerals(Join(words), |words| - 1)
  {
    if |words| > 1 {
      var init, last := words[..|words| - 1], words[|words| - 1];
      assert forall k :: 1 <= k < |init| ==> IsNumeral(init[k]) by {
        forall k | 1 <= k < |init| ensures IsNumeral(init[k]) { assert init[k] == words[k]; }
      }
      assert init + [last] == words;
      JoinSnoc(init, last);
      JoinedNumerals(init);
      MoreNumerals(Join(init), |init| - 1, last, Join(words));
    }
  }

  /** Every draw line of the shape the client sends matches: a board name and eight numerals. */
  lemma DrawAccepted(name: string, numerals: seq<string>)
    requires IsText(name) && |numerals| == 8
    requires forall k :: 0 <= k < 8 ==> IsNumeral(numerals[k])
    ensures Matches("draw " + Join([name] + numerals))
  {
    var words := [name] + numerals;
    assert forall k :: 1 <= k < |words| ==> IsNumeral(words[k]) by {
      forall k | 1 <= k < |words| ensures IsNumeral(words[k]) { assert words[k] == numerals[k - 1]; }
    }
    JoinedNumerals(words);
    var input := "draw " + Join(words);
    assert input[..4] == "draw" && input[4] == ' ';
    assert Arguments(input, "draw") == Join(words);
  }
}
