/**
 * The part of WhiteboardClient that is not window or socket code: the two substring helpers,
 * the client's own fields, and how the usernameCreated, allUsersOnline and open lines from the
 * server and the closing of the whiteboard window change those fields. Java's null is None.
 */
module Client {
  import opened Wrappers
  import opened Text
  import Server

  // ---------------------------------------------------------------- substrings

  /**
   * getStringAfterSpace: the rest of s from its first space, that space included. Without
   * a space, substring(-1) throws StringIndexOutOfBounds (None).
   */
  function StringAfterSpace(s: string): (r: Option<string>)
    ensures r.None? <==> ' ' !in s
    ensures r.Some? ==> (|r.value| > 0 && r.value[0] == ' ' && |r.value| <= |s|
                         && r.value == s[|s| - |r.value|..] && ' ' !in s[..|s| - |r.value|])
  {
    var i := IndexOf(s, ' ');
    if i == -1 then None else Some(s[i..])
  }

  /**
   * getStringAfterSecondSpace: the rest of s from its second space, that space included.
   * With fewer than two spaces, indexOf gives -1 and substring throws (None).
   */
  function StringAfterSecondSpace(s: string): (r: Option<string>)
    ensures r.None? <==> !exists a, b :: 0 <= a < b < |s| && s[a] == ' ' && s[b] == ' '
    ensures r.Some? ==> (|r.value| > 0 && r.value[0] == ' ' && |r.value| <= |s|
                         && r.value == s[|s| - |r.value|..])
  {
    var i := IndexOf(s, ' ');
    var j := IndexOfFrom(s, ' ', (i + 1) as nat);
    if j == -1 then None
    else
      assert s[i] == ' ' && s[j] == ' ';
      Some(s[j..])
  }

  /** The part of s before its first space, followed by the part getStringAfterSpace returns, is s. */
  lemma BeforeAndAfterSpace(s: string)
    requires ' ' in s
    ensures s[..IndexOf(s, ' ')] + StringAfterSpace(s).value == s
  {
  }

  /** A keyword without spaces, a space and the rest: what follows the first space is the space and the rest. */
  lemma AfterKeyword(keyword: string, rest: string)
    requires ' ' !in keyword
    ensures StringAfterSpace(keyword + " " + rest) == Some(" " + rest)
  {
    var s := keyword + " " + rest;
    assert s[|keyword|] == ' ' && s[..|keyword|] == keyword;
    assert s[|keyword|..] == " " + rest;
  }

  /** The text from the second space is the text from the first space of what follows the first space. */
  lemma SecondSpaceOfRest(s: string)
    requires ' ' in s
    ensures StringAfterSecondSpace(s) == StringAfterSpace(StringAfterSpace(s).value[1..])
  {
    var i := IndexOf(s, ' ');
    assert StringAfterSpace(s).value[1..] == s[i + 1..];
    var j := IndexOfFrom(s, ' ', i + 1);
    if j == -1 {
      NoSecondSpace(s, i);
    } else {
      SecondSpaceAt(s, i, j);
    }
  }

  /** With one space only, both sides throw. */
  lemma NoSecondSpace(s: string, i: nat)
    requires i == IndexOf(s, ' ') && IndexOfFrom(s, ' ', i + 1) == -1
    ensures StringAfterSecondSpace(s) == None && StringAfterSpace(s[i + 1..]) == None
  {
    var rest := s[i + 1..];
    assert ' ' !in rest by {
      forall k | 0 <= k < |rest| ensures rest[k] != ' ' { assert rest[k] == s[i + 1 + k]; }
    }
  }

  /** With a second space at j, both sides are the text from j. */
  lemma SecondSpaceAt(s: string, i: nat, j: nat)
    requires i == IndexOf(s, ' ') && IndexOfFrom(s, ' ', i + 1) == j
    ensures StringAfterSecondSpace(s) == Some(s[j..]) && StringAfterSpace(s[i + 1..]) == Some(s[j..])
  {
    var rest := s[i + 1..];
    assert rest[..j - i - 1] == s[i + 1..j];
    assert IndexOf(rest, ' ') == j - i - 1;
    assert rest[j - i - 1..] == s[j..];
  }

  // ---------------------------------------------------------------- the client's state

  class WhiteboardClient {
    var username: Option<string>
    var usersOnLine: Option<seq<string>>
    var whiteboard: Option<string>
    var hasWhiteboardOpen: bool
    var isClientInterfaceOpen: bool

    /** A new client: no username, no users list, no whiteboard open, no main window. */
    constructor ()
      ensures username == None && usersOnLine == None && whiteboard == None
      ensures !hasWhiteboardOpen && !isClientInterfaceOpen
    {
      username := None;
      usersOnLine := None;
      whiteboard := None;
      hasWhiteboardOpen := false;
      isClientInterfaceOpen := false;
    }

    /** hasWhiteboardOpen */
    function HasWhiteboardOpen(): bool
      reads this
    {
      hasWhiteboardOpen
    }

    /** closeWhiteboardGUI: no whiteboard is open any more; no other field changes. */
    method CloseWhiteboardGUI()
      modifies this`whiteboard, this`hasWhiteboardOpen
      ensures whiteboard == None && !HasWhiteboardOpen()
    {
      whiteboard := None;
      hasWhiteboardOpen := false;
    }

    /**
     * The usernameCreated branch of handleRequest: the second token becomes the username and
     * the main window opens. A line with one token throws at tokens[1] (false), changing nothing.
     */
    method UsernameCreated(tokens: seq<string>) returns (ok: bool)
      modifies this`username, this`isClientInterfaceOpen
      ensures ok <==> |tokens| >= 2
      ensures ok ==> username == Some(tokens[1]) && isClientInterfaceOpen
      ensures !ok ==> username == old(username) && isClientInterfaceOpen == old(isClientInterfaceOpen)
    {
      if |tokens| < 2 {
        return false;
      }
      username := Some(tokens[1]);
      isClientInterfaceOpen := true;
      ok := true;
    }

    /**
     * The allUsersOnline branch of handleRequest: the users list becomes what follows the first
     * space, trimmed and split at single spaces. A line without a space throws (false).
     */
    method AllUsersOnline(input: string) returns (ok: bool)
      modifies this`usersOnLine
      ensures ok <==> StringAfterSpace(input).Some?
      ensures ok ==> usersOnLine == Some(Split(Trim(StringAfterSpace(input).value)))
      ensures !ok ==> usersOnLine == old(usersOnLine)
    {
      var rest := StringAfterSpace(input);
      if rest.None? {
        return false;
      }
      usersOnLine := Some(Split(Trim(rest.value)));
      ok := true;
    }

    /**
     * The field updates of the open branch of handleRequest: the second token names the open
     * whiteboard. A line with one token throws at tokens[1] (false), changing nothing.
     */
    method OpenedWhiteboard(tokens: seq<string>) returns (ok: bool)
      modifies this`whiteboard, this`hasWhiteboardOpen
      ensures ok <==> |tokens| >= 2
      ensures ok ==> whiteboard == Some(tokens[1]) && HasWhiteboardOpen()
      ensures !ok ==> whiteboard == old(whiteboard) && hasWhiteboardOpen == old(hasWhiteboardOpen)
    {
      if |tokens| < 2 {
        return false;
      }
      whiteboard := Some(tokens[1]);
      hasWhiteboardOpen := true;
      ok := true;
    }
  }

  // ---------------------------------------------------------------- with the server

  /** A name whose every character is above U+0020, so trim leaves it alone and it holds no space. */
  predicate Visible(name: string)
  {
    |name| > 0 && forall k :: 0 <= k < |name| ==> name[k] > ' '
  }

  /**
   * What the server sends after a username is created or a user logs out, the allUsersOnline
   * line built from getAllUsernames, is read back by the client as exactly the usernames, in
   * the order the server listed them.
   */
  lemma UsersOnlineRoundTrip(order: seq<string>)
    requires |order| > 0 && forall k :: 0 <= k < |order| ==> Visible(order[k])
    ensures var line := "allUsersOnline " + Server.Listing(order);
      ' ' in line && Split(Trim(StringAfterSpace(line).value)) == order
  {
    var joined := Join(order);
    UsersOnlineLine(order);
    JoinEnds(order);
    TrimPadded(joined);
    forall k | 0 <= k < |order| ensures ' ' !in order[k] {
      assert Visible(order[k]);
    }
    SplitJoin(order);
  }

  /** The allUsersOnline keyword holds no space. */
  lemma UsersOnlineKeyword()
    ensures ' ' !in "allUsersOnline" && "allUsersOnline " == "allUsersOnline" + " "
  {
  }

  /** What follows the first space of an allUsersOnline line: the joined names between two spaces. */
  lemma UsersOnlineLine(order: seq<string>)
    requires |order| > 0
    ensures StringAfterSpace("allUsersOnline " + Server.Listing(order)) == Some(" " + Join(order) + " ")
  {
    UsersOnlineKeyword();
    Server.ListingJoin(order);
    var rest := Join(order) + " ";
    assert " " + rest == " " + Join(order) + " ";
    AfterKeyword("allUsersOnline", rest);
  }

  /** Joined non-empty words start with the first word's first character and end with the last word's last. */
  lemma JoinEnds(words: seq<string>)
    requires |words| > 0 && forall k :: 0 <= k < |words| ==> |words[k]| > 0
    ensures var j := Join(words);
      |j| > 0 && j[0] == words[0][0] && j[|j| - 1] == words[|words| - 1][|words[|words| - 1]| - 1]
  {
    var last := words[|words| - 1];
    assert |words[0]| > 0 && |last| > 0;
    if |words| > 1 {
      var init := words[..|words| - 1];
      assert Join(words) == words[0] + " " + Join(words[1..]);
      assert init + [last] == words;
      JoinSnoc(init, last);
    }
  }
}
