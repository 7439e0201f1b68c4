/**
 * The WhiteboardServer: the boards created during a session with their names, the connected
 * clients by username, and the request handlers behind handleRequest. Every line the server
 * writes to a client's socket is recorded, in order, in the outbox; a handler that would throw
 * in Java answers Raised and leaves the server as it was.
 */
module Server {
  import opened Wrappers
  import opened Text
  import opened Lists
  import opened Points
  import opened Raster
  import opened Boards
  import opened Grammar

  /** A client's connection; only its identity matters here. */
  datatype Socket = Socket(id: nat)

  /** One line written to one client's socket. */
  datatype Message = Message(to: Socket, text: string)

  /** The exceptions the handlers let escape. */
  datatype Exception =
    | RuntimeError(message: string)
    | IndexOutOfBounds
    | ArrayIndexOutOfBounds
    | NumberFormat
    | IllegalArgument
    | UnsupportedOperation

  /** What handleRequest does with a line: answers a text, or throws. */
  datatype Outcome = Answer(text: string) | Raised(error: Exception)

  const NoSpacesInWhiteboard: string := "whiteboardnameerror Whiteboard names cannot contain any spaces."
  const WhiteboardAlreadyCreated: string := "whiteboardnameerror A whiteboard with that name has already created.  Please choose another name."
  const InvalidInputError: string := "Invalid input."
  const LogoutRequest: string := "logout"
  const NotCreatedError: string := "whiteboardopenerror A whiteboard with that name has not been created."
  const UsernameAlreadyCreated: string := "usernameerror That username is already being used."
  const UsernameContainsSpace: string := "usernameerror There should be no spaces in the username."
  const UnknownUserError: string := "The username that you requested to be logged out does not exist."
  const WidthOfWhiteboards: nat := 800
  const HeightOfWhiteboards: nat := 600

  // ---------------------------------------------------------------- sending

  /** The sockets of the listed users that are connected, in list order; the others are skipped. */
  function SocketsOf(users: seq<string>, clients: map<string, Socket>): seq<Socket>
  {
    if users == [] then []
    else
      var u := users[|users| - 1];
      SocketsOf(users[..|users| - 1], clients) + (if u in clients then [clients[u]] else [])
  }

  /** A socket is reached exactly when some listed user is connected through it. */
  lemma {:induction false} SocketsOfMembers(users: seq<string>, clients: map<string, Socket>)
    ensures forall s :: s in SocketsOf(users, clients) <==> exists u :: u in users && u in clients && clients[u] == s
  {
    if users != [] {
      var init := users[..|users| - 1];
      SocketsOfMembers(init, clients);
      assert users == init + [users[|users| - 1]];
    }
  }

  /** When every listed user is connected, each user in turn gets exactly one line. */
  lemma {:induction false} SocketsOfConnected(users: seq<string>, clients: map<string, Socket>)
    requires forall k :: 0 <= k < |users| ==> users[k] in clients
    ensures |SocketsOf(users, clients)| == |users|
    ensures forall k :: 0 <= k < |users| ==> SocketsOf(users, clients)[k] == clients[users[k]]
  {
    if users != [] {
      var init := users[..|users| - 1];
      SocketsOfConnected(init, clients);
    }
  }

  /** Dropping trailing empty names loses no socket when nobody is connected as "". */
  lemma {:induction false} SocketsOfDropTrailingEmpty(users: seq<string>, clients: map<string, Socket>)
    requires "" !in clients
    ensures SocketsOf(DropTrailingEmpty(users), clients) == SocketsOf(users, clients)
  {
    if |users| > 0 && users[|users| - 1] == "" {
      SocketsOfDropTrailingEmpty(users[..|users| - 1], clients);
    }
  }

  /**
   * sendMessageToSomeClients rebuilds a board's users by splitting the text getUsernames
   * joined; as long as no client is connected as "", the round trip reaches exactly the
   * connected users of the list, in list order.
   */
  lemma SocketsOfSplitJoin(users: seq<string>, clients: map<string, Socket>)
    requires forall k :: 0 <= k < |users| ==> ' ' !in users[k]
    requires "" !in clients
    ensures SocketsOf(Split(Join(users)), clients) == SocketsOf(users, clients)
  {
    if |users| > 1 {
      JoinHasSpace(users);
      PiecesJoin(users);
      SocketsOfDropTrailingEmpty(users, clients);
    } else if |users| == 1 {
      assert Join(users) == users[0];
    }
  }

  /** The same line written to each socket in turn. */
  function Sends(sockets: seq<Socket>, text: string): seq<Message>
  {
    seq(|sockets|, k requires 0 <= k < |sockets| => Message(sockets[k], text))
  }

  lemma SendsAppend(a: seq<Socket>, b: seq<Socket>, text: string)
    ensures Sends(a + b, text) == Sends(a, text) + Sends(b, text)
  {
  }

  /** One more user considered: the step of the subscriber loop. */
  lemma SendStep(users: seq<string>, i: nat, clients: map<string, Socket>, text: string)
    requires i < |users|
    ensures Sends(SocketsOf(users[..i + 1], clients), text)
      == Sends(SocketsOf(users[..i], clients), text)
         + (if users[i] in clients then [Message(clients[users[i]], text)] else [])
  {
    assert users[..i + 1][..i] == users[..i];
    var next := if users[i] in clients then [clients[users[i]]] else [];
    SendsAppend(SocketsOf(users[..i], clients), next, text);
  }

  /** order lists every key of the set once. */
  ghost predicate Enumerates(order: seq<string>, keys: set<string>)
  {
    (forall i, j :: 0 <= i < j < |order| ==> order[i] != order[j])
    && (forall k :: k in keys <==> k in order)
  }

  /** The sockets of the listed users, all connected. */
  function Lookups(order: seq<string>, clients: map<string, Socket>): seq<Socket>
    requires forall k :: k in order ==> k in clients
  {
    seq(|order|, i requires 0 <= i < |order| => clients[order[i]])
  }

  /** ms writes text once to the socket of every client, in some order of the usernames. */
  ghost predicate Broadcast(ms: seq<Message>, clients: map<string, Socket>, text: string)
  {
    exists order :: Enumerates(order, clients.Keys) && ms == Sends(Lookups(order, clients), text)
  }

  /** Each username followed by one space: the text getAllUsernames builds. */
  function Listing(order: seq<string>): string
  {
    if order == [] then "" else Listing(order[..|order| - 1]) + (order[|order| - 1] + " ")
  }

  /** A listing is the usernames joined by spaces, plus one trailing space. */
  lemma {:induction false} ListingJoin(order: seq<string>)
    requires order != []
    ensures Listing(order) == Join(order) + " "
  {
    var init := order[..|order| - 1];
    if init != [] {
      ListingJoin(init);
      JoinSnoc(init, order[|order| - 1]);
      assert init + [order[|order| - 1]] == order;
    } else {
      assert order == [order[0]];
    }
  }

  /** ms announces the online users to every client, in some order of the usernames. */
  ghost predicate AnnouncesUsers(ms: seq<Message>, clients: map<string, Socket>)
  {
    exists order :: Enumerates(order, clients.Keys) && Broadcast(ms, clients, "allUsersOnline " + Listing(order))
  }

  /** What logout sends for one board: its remaining users, to them, when the user was on it. */
  function LeaveNotice(users: seq<string>, u: string, clients: map<string, Socket>): seq<Message>
  {
    if u in users then
      var rest := RemoveFirst(users, u);
      Sends(SocketsOf(Split(Join(rest)), clients), "usersOnWhiteboard " + Join(rest))
    else []
  }

  /** What logout sends for the boards, in creation order. */
  function LeaveNotices(boardUsers: seq<seq<string>>, u: string, clients: map<string, Socket>): seq<Message>
  {
    if boardUsers == [] then []
    else LeaveNotices(boardUsers[..|boardUsers| - 1], u, clients) + LeaveNotice(boardUsers[|boardUsers| - 1], u, clients)
  }

  lemma LeaveNoticesStep(boardUsers: seq<seq<string>>, j: nat, u: string, clients: map<string, Socket>)
    requires j < |boardUsers|
    ensures LeaveNotices(boardUsers[..j + 1], u, clients)
      == LeaveNotices(boardUsers[..j], u, clients) + LeaveNotice(boardUsers[j], u, clients)
  {
    assert boardUsers[..j + 1][..j] == boardUsers[..j];
  }

  /** The outbox after one more board's notice, in the terms of the logout loop. */
  lemma NoticesStep(start: seq<Message>, before: seq<seq<string>>, j: nat, u: string, clients: map<string, Socket>,
                    previous: seq<Message>, now: seq<Message>)
    requires j < |before|
    requires previous == start + LeaveNotices(before[..j], u, clients)
    requires now == previous + LeaveNotice(before[j], u, clients)
    ensures now == start + LeaveNotices(before[..j + 1], u, clients)
  {
    LeaveNoticesStep(before, j, u, clients);
  }

  /** Every board's user list with the first occurrence of u removed. */
  function RemovedEverywhere(boardUsers: seq<seq<string>>, u: string): seq<seq<string>>
  {
    seq(|boardUsers|, j requires 0 <= j < |boardUsers| => RemoveFirst(boardUsers[j], u))
  }

  /** One more board left: the step of the logout loop on the user lists. */
  lemma RemovedStep(boardUsers: seq<seq<string>>, j: nat, u: string)
    requires j < |boardUsers|
    ensures (RemovedEverywhere(boardUsers[..j], u) + boardUsers[j..])[j := RemoveFirst(boardUsers[j], u)]
      == RemovedEverywhere(boardUsers[..j + 1], u) + boardUsers[j + 1..]
  {
  }

  /** In a list of distinct names, a name is found at its own position. */
  lemma IndexOfDistinct(names: seq<string>, i: nat)
    requires i < |names| && forall a, b :: 0 <= a < b < |names| ==> names[a] != names[b]
    ensures Lists.IndexOf(names, names[i]) == i
  {
  }

  // ---------------------------------------------------------------- draw arguments

  /** tokens has an entry at j, and it is the text of an int. */
  predicate IsIntAt(tokens: seq<string>, j: int)
  {
    0 <= j < |tokens| && ParseInt(tokens[j]).Some?
  }

  /** tokens[j] is the first of tokens[k], ..., tokens[9] that is missing or not an int. */
  predicate FirstFault(tokens: seq<string>, k: int, j: int)
  {
    k <= j < 10 && (forall i :: k <= i < j ==> IsIntAt(tokens, i)) && !IsIntAt(tokens, j)
  }

  /** A fault after an int token is the first fault from that token on. */
  lemma FaultLater(tokens: seq<string>, k: int, next: int, e: Exception)
    requires IsIntAt(tokens, k) && next == k + 1
    requires exists j :: (FirstFault(tokens, next, j)
      && e == (if j >= |tokens| then ArrayIndexOutOfBounds else NumberFormat))
    ensures exists j :: (FirstFault(tokens, k, j)
      && e == (if j >= |tokens| then ArrayIndexOutOfBounds else NumberFormat))
  {
    var j :| FirstFault(tokens, next, j) && e == (if j >= |tokens| then ArrayIndexOutOfBounds else NumberFormat);
    assert FirstFault(tokens, k, j);
  }

  /** The eight integers of a draw line, or the exception parsing them throws. */
  datatype DrawArguments = Parsed(values: seq<int>) | Unparsable(error: Exception)

  /**
   * Integer.parseInt on tokens[k], ..., tokens[9] in that order: the first token missing from
   * the array throws ArrayIndexOutOfBounds, the first that is not an int throws NumberFormat.
   */
  function ParseDrawArguments(tokens: seq<string>, k: nat): (r: DrawArguments)
    requires 2 <= k <= 10
    ensures r.Parsed? <==> forall j :: k <= j < 10 ==> IsIntAt(tokens, j)
    ensures r.Parsed? ==> |r.values| == 10 - k
    ensures r.Parsed? ==> forall i :: 0 <= i < 10 - k ==>
      IsIntAt(tokens, k + i) && ParseInt(tokens[k + i]) == Some(r.values[i])
    ensures r.Unparsable? ==> exists j :: (FirstFault(tokens, k, j)
      && r.error == (if j >= |tokens| then ArrayIndexOutOfBounds else NumberFormat))
    decreases 10 - k
  {
    if k == 10 then Parsed([])
    else if k >= |tokens| then
      assert FirstFault(tokens, k, k);
      Unparsable(ArrayIndexOutOfBounds)
    else match ParseInt(tokens[k])
      case None =>
        assert FirstFault(tokens, k, k);
        Unparsable(NumberFormat)
      case Some(v) =>
        var rest := ParseDrawArguments(tokens, k + 1);
        if rest.Parsed? then
          var values := [v] + rest.values;
          assert forall i :: 1 <= i < 10 - k ==> values[i] == rest.values[i - 1] && k + i == (k + 1) + (i - 1);
          Parsed(values)
        else
          FaultLater(tokens, k, k + 1, rest.error);
          rest
  }

  /** The int tokens[j] holds. */
  function IntAt(tokens: seq<string>, j: int): int
    requires IsIntAt(tokens, j)
  {
    ParseInt(tokens[j]).value
  }

  /**
   * The exception drawWhiteboard throws on these tokens before it changes anything, in the
   * order of its steps: the missing name, the unknown board, the first missing or malformed
   * int, the colour component outside 0..255; None when the line is drawn.
   */
  function DrawFault(tokens: seq<string>, names: seq<string>): (e: Option<Exception>)
    ensures |tokens| < 2 ==> e == Some(ArrayIndexOutOfBounds)
    ensures |tokens| >= 2 && tokens[1] !in names ==> e == Some(IndexOutOfBounds)
    ensures e.None? <==>
      |tokens| >= 2 && tokens[1] in names && (forall j :: 2 <= j < 10 ==> IsIntAt(tokens, j))
      && ValidColor(Color(IntAt(tokens, 6), IntAt(tokens, 7), IntAt(tokens, 8)))
    ensures e.Some? ==> e.value in {ArrayIndexOutOfBounds, IndexOutOfBounds, NumberFormat, IllegalArgument}
  {
    if |tokens| < 2 then Some(ArrayIndexOutOfBounds)
    else if tokens[1] !in names then Some(IndexOutOfBounds)
    else match ParseDrawArguments(tokens, 2)
      case Unparsable(error) => Some(error)
      case Parsed(v) =>
        assert v[4] == IntAt(tokens, 6) && v[5] == IntAt(tokens, 7) && v[6] == IntAt(tokens, 8);
        if !ValidColor(Color(v[4], v[5], v[6])) then Some(IllegalArgument) else None
  }

  // ---------------------------------------------------------------- the server

  class WhiteboardServer {
    /** The boards, in the order they were created. */
    var boards: seq<Whiteboard>
    /** names[i] is the name of boards[i]. */
    var names: seq<string>
    /** The connected clients' sockets, by username. */
    var clients: map<string, Socket>
    /** Every line written to a client's socket, in order. */
    var outbox: seq<Message>

    /**
     * The representation invariant: the i-th name is the i-th board's name, the names are
     * distinct, and every board is an 800-by-600 board with pixels of its own.
     */
    ghost predicate Valid()
      reads this`boards, this`names
    {
      |names| == |boards|
      && (forall i :: 0 <= i < |boards| ==>
            boards[i].name == names[i] && boards[i].Valid()
            && boards[i].width == WidthOfWhiteboards && boards[i].height == HeightOfWhiteboards)
      && (forall i, j :: 0 <= i < j < |names| ==> names[i] != names[j])
      && (forall i, j :: 0 <= i < j < |boards| ==> boards[i].pixels != boards[j].pixels)
    }

    /** The pixel arrays of all boards. */
    ghost function PixelArrays(): set<object>
      reads this`boards
    {
      set j | 0 <= j < |boards| :: boards[j].pixels
    }

    /** The user lists of all boards. */
    ghost function Users(): (u: seq<seq<string>>)
      reads this`boards, boards
      ensures |u| == |boards|
    {
      var bs := boards;
      seq(|bs|, j requires 0 <= j < |bs| reads bs => bs[j].usernames)
    }

    /** What sendMessageToSomeClients writes for board i: text to each of its connected users. */
    ghost function Notice(i: int, text: string): seq<Message>
      requires 0 <= i < |boards|
      reads this`boards, this`clients, boards
    {
      Sends(SocketsOf(Split(Join(boards[i].usernames)), clients), text)
    }

    /** The boards that were there keep their place, users and pixels, except board i. */
    twostate predicate OthersUnchanged(i: int)
      reads this, boards, PixelArrays()
    {
      |old(boards)| <= |boards| && boards[..|old(boards)|] == old(boards)
      && forall j :: 0 <= j < |old(boards)| && j != i ==>
           boards[j].usernames == old(boards[j].usernames) && unchanged(boards[j].pixels)
    }

    /** Nothing the server holds has changed. */
    twostate predicate Unchanged()
      reads this, boards, PixelArrays()
    {
      boards == old(boards) && names == old(names) && clients == old(clients) && outbox == old(outbox)
      && OthersUnchanged(-1)
    }

    /** outbox grew by lines appended at its end. */
    twostate predicate Appended()
      reads this
    {
      |old(outbox)| <= |outbox| && outbox[..|old(outbox)|] == old(outbox)
    }

    /** The point where an empty server starts listening; the server socket is not modelled. */
    constructor ()
      ensures Valid()
      ensures boards == [] && names == [] && clients == map[] && outbox == []
    {
      boards := [];
      names := [];
      clients := map[];
      outbox := [];
    }

    /**
     * checkRep: whether the i-th name is the i-th board's name for every board. A names list
     * shorter than the boards throws once the comparisons so far have all held (None).
     */
    method CheckRep() returns (r: Option<bool>)
      ensures r.None? <==> |names| < |boards| && forall i :: 0 <= i < |names| ==> names[i] == boards[i].name
      ensures r.Some? ==> (r.value <==> |boards| <= |names| && forall i :: 0 <= i < |boards| ==> names[i] == boards[i].name)
      ensures Valid() ==> r == Some(true)
    {
      var flag := true;
      var i := 0;
      while i < |boards|
        invariant 0 <= i <= |boards|
        invariant flag ==> i <= |names|
        invariant flag <==> forall k :: 0 <= k < i && k < |names| ==> names[k] == boards[k].name
      {
        if flag {
          if i >= |names| {
            return None;
          }
          flag := names[i] == boards[i].name;
        }
        i := i + 1;
      }
      return Some(flag);
    }

    /** getNames: the board names in creation order. */
    method GetNames() returns (r: seq<string>)
      ensures |r| == |names| && forall i :: 0 <= i < |r| ==> r[i] == names[i]
    {
      r := names;
    }

    /** getAllWhiteboards: the board names in creation order, separated by single spaces. */
    method GetAllWhiteboards() returns (s: string)
      ensures s == Join(names)
    {
      s := "";
      var i := 0;
      while i < |names|
        invariant 0 <= i <= |names|
        invariant s == if i == 0 then "" else if i < |names| then Join(names[..i]) + " " else Join(names)
      {
        if i > 0 {
          JoinSnoc(names[..i], names[i]);
          assert names[..i] + [names[i]] == names[..i + 1];
        } else {
          assert names[..1] == [names[0]];
        }
        s := s + names[i];
        if i != |names| - 1 {
          s := s + " ";
        }
        i := i + 1;
        assert i == |names| ==> names[..i] == names;
      }
    }

    /**
     * getAllUsernames: every connected username followed by one space. The order is that of
     * the HashMap's key set, which is not specified; order is the one taken.
     */
    method GetAllUsernames() returns (s: string, ghost order: seq<string>)
      ensures Enumerates(order, clients.Keys)
      ensures s == Listing(order)
    {
      s := "";
      order := [];
      var rest := clients.Keys;
      while rest != {}
        invariant rest <= clients.Keys
        invariant forall i, j :: 0 <= i < j < |order| ==> order[i] != order[j]
        invariant forall k :: k in clients.Keys <==> k in rest || k in order
        invariant forall k :: k in order ==> k !in rest
        invariant s == Listing(order)
        decreases |rest|
      {
        var username :| username in rest;
        assert (order + [username])[..|order|] == order;
        s := s + (username + " ");
        order := order + [username];
        rest := rest - {username};
      }
    }

    /**
     * sendMessageToSomeClients: writes text to every connected user of the board with that
     * name, in the order of the board's user list; nothing when there is no such board.
     */
    method SendToSubscribers(name: string, text: string)
      requires Valid()
      modifies this`outbox
      ensures outbox == old(outbox) + (if name in names then Notice(Lists.IndexOf(names, name), text) else [])
    {
      var index := Lists.IndexOf(names, name);
      if index != -1 {
        var whiteboard := boards[index];
        var joined := whiteboard.GetUsernames();
        SendToUsers(Split(joined), text);
      }
    }

    /** The loop of sendMessageToSomeClients: text to each listed user that is connected. */
    method SendToUsers(usernames: seq<string>, text: string)
      modifies this`outbox
      ensures outbox == old(outbox) + Sends(SocketsOf(usernames, clients), text)
    {
      var i := 0;
      while i < |usernames|
        invariant 0 <= i <= |usernames|
        invariant outbox == old(outbox) + Sends(SocketsOf(usernames[..i], clients), text)
      {
        SendStep(usernames, i, clients, text);
        if usernames[i] in clients {
          outbox := outbox + [Message(clients[usernames[i]], text)];
        }
        i := i + 1;
      }
      assert usernames[..i] == usernames;
    }

    /** sendMessageToAllClients: writes text once to each connected client, in key-set order. */
    method SendToAll(text: string) returns (ghost order: seq<string>)
      modifies this`outbox
      ensures Enumerates(order, clients.Keys)
      ensures outbox == old(outbox) + Sends(Lookups(order, clients), text)
    {
      order := [];
      var rest := clients.Keys;
      while rest != {}
        invariant rest <= clients.Keys
        invariant forall i, j :: 0 <= i < j < |order| ==> order[i] != order[j]
        invariant forall k :: k in clients.Keys <==> k in rest || k in order
        invariant forall k :: k in order ==> k !in rest
        invariant outbox == old(outbox) + Sends(Lookups(order, clients), text)
        decreases |rest|
      {
        var username :| username in rest;
        assert Lookups(order + [username], clients) == Lookups(order, clients) + [clients[username]];
        outbox := outbox + [Message(clients[username], text)];
        order := order + [username];
        rest := rest - {username};
      }
    }

    // -------------------------------------------------------------- handlers

    /** The effect of createWhiteboard on the tokens of a create line. */
    twostate predicate Created(tokens: seq<string>, r: Outcome)
      reads this, boards, PixelArrays()
    {
      if |tokens| != 2 then r == Answer(NoSpacesInWhiteboard) && Unchanged()
      else if tokens[1] in old(names) then r == Answer(WhiteboardAlreadyCreated) && Unchanged()
      else
        var n := |old(boards)|;
        names == old(names) + [tokens[1]] && |boards| == n + 1 && OthersUnchanged(-1)
        && fresh(boards[n]) && boards[n].Valid() && boards[n].usernames == []
        && boards[n].Grid() == Blank(WidthOfWhiteboards, HeightOfWhiteboards)
        && clients == old(clients)
        && Appended() && Broadcast(outbox[|old(outbox)|..], clients, "allwhiteboards " + Join(names))
        && r == Answer("whiteboardcreated " + tokens[1])
    }

    /**
     * createWhiteboard: a single unused name gets a new blank 800-by-600 board at the end of
     * the list, and every client is told the new list of board names.
     */
    method CreateWhiteboard(tokens: seq<string>) returns (r: Outcome)
      requires Valid()
      modifies this
      ensures Valid() && Created(tokens, r)
    {
      if |tokens| != 2 {
        return Answer(NoSpacesInWhiteboard);
      }
      var name := tokens[1];
      if Lists.IndexOf(names, name) != -1 {
        return Answer(WhiteboardAlreadyCreated);
      }
      AddWhiteboard(name);
      r := Answer("whiteboardcreated " + name);
    }

    /** The part of createWhiteboard after the name is found unused. */
    method AddWhiteboard(name: string)
      requires Valid() && name !in names
      modifies this
      ensures Valid()
      ensures names == old(names) + [name] && |boards| == |old(boards)| + 1
      ensures boards[..|old(boards)|] == old(boards)
      ensures fresh(boards[|old(boards)|]) && boards[|old(boards)|].Valid() && boards[|old(boards)|].usernames == []
      ensures boards[|old(boards)|].Grid() == Blank(WidthOfWhiteboards, HeightOfWhiteboards)
      ensures clients == old(clients)
      ensures Appended() && Broadcast(outbox[|old(outbox)|..], clients, "allwhiteboards " + Join(names))
    {
      var whiteboard := new Whiteboard(name, WidthOfWhiteboards, HeightOfWhiteboards);
      boards := boards + [whiteboard];
      names := names + [whiteboard.GetName()];
      var all := GetAllWhiteboards();
      ghost var start := outbox;
      ghost var order := SendToAll("allwhiteboards " + all);
      assert outbox[|start|..] == Sends(Lookups(order, clients), "allwhiteboards " + all);
    }

    /** The effect of openWhiteboard; with notDebug off the user is not added and nobody is told. */
    twostate predicate Opened(tokens: seq<string>, notDebug: bool, r: Outcome)
      requires old(Valid())
      reads this, boards, PixelArrays()
    {
      if |tokens| != 3 || tokens[2] !in old(names) then r == Answer(NotCreatedError) && Unchanged()
      else
        var i := Lists.IndexOf(old(names), tokens[2]);
        boards == old(boards) && names == old(names) && clients == old(clients)
        && OthersUnchanged(i) && unchanged(boards[i].pixels)
        && (if notDebug then
              boards[i].usernames == old(boards[i].usernames) + [tokens[1]]
              && outbox == old(outbox) + Notice(i, "alsoediting " + Join(boards[i].usernames))
            else boards[i].usernames == old(boards[i].usernames) && outbox == old(outbox))
        && boards[i].Valid()
        && r == Answer("open " + tokens[2] + " " + Snapshot(boards[i].Grid()))
    }

    /**
     * openWhiteboard: for an existing board, adds the user to it, tells the board's users who
     * is on it, and answers the board's name and text.
     */
    method OpenWhiteboard(tokens: seq<string>, notDebug: bool) returns (r: Outcome)
      requires Valid()
      modifies this`outbox, boards
      ensures Valid() && Opened(tokens, notDebug, r)
    {
      if |tokens| != 3 {
        return Answer(NotCreatedError);
      }
      var username, whiteboardName := tokens[1], tokens[2];
      var index := Lists.IndexOf(names, whiteboardName);
      if index == -1 {
        return Answer(NotCreatedError);
      }
      var text := OpenBoard(index, username, notDebug);
      r := Answer("open " + whiteboardName + " " + text);
    }

    /** The part of openWhiteboard after the board is found. */
    method OpenBoard(index: nat, username: string, notDebug: bool) returns (text: string)
      requires Valid() && index < |boards|
      modifies this`outbox, boards[index]
      ensures if notDebug then
          boards[index].usernames == old(boards[index].usernames) + [username]
          && outbox == old(outbox) + Notice(index, "alsoediting " + Join(boards[index].usernames))
        else boards[index].usernames == old(boards[index].usernames) && outbox == old(outbox)
      ensures text == Snapshot(boards[index].Grid())
    {
      var whiteboard := boards[index];
      if notDebug {
        var alsoEditing := whiteboard.AddUsername(username);
        SendToSubscribers(whiteboard.GetName(), "alsoediting " + alsoEditing);
      }
      text := whiteboard.ToString();
    }

    /** The effect of createUsername; with notDebug off nobody is told. */
    twostate predicate NamedUser(tokens: seq<string>, socket: Socket, notDebug: bool, r: Outcome)
      reads this, boards, PixelArrays()
    {
      if |tokens| != 2 then r == Answer(UsernameContainsSpace) && Unchanged()
      else if tokens[1] in old(clients) then r == Answer(UsernameAlreadyCreated) && Unchanged()
      else
        boards == old(boards) && names == old(names) && OthersUnchanged(-1)
        && clients == old(clients)[tokens[1] := socket]
        && (if notDebug then Appended() && AnnouncesUsers(outbox[|old(outbox)|..], clients)
            else outbox == old(outbox))
        && r == Answer("usernameCreated " + tokens[1])
    }

    /**
     * createUsername: a single unused username is connected through the socket, and every
     * client is told the usernames now online.
     */
    method CreateUsername(tokens: seq<string>, socket: Socket, notDebug: bool) returns (r: Outcome)
      requires Valid()
      modifies this`clients, this`outbox
      ensures Valid() && NamedUser(tokens, socket, notDebug, r)
    {
      if |tokens| != 2 {
        return Answer(UsernameContainsSpace);
      }
      var desiredUsername := tokens[1];
      if desiredUsername in clients {
        return Answer(UsernameAlreadyCreated);
      }
      clients := clients[desiredUsername := socket];
      if notDebug {
        ghost var start := outbox;
        ghost var announcement := AnnounceUsers();
        assert outbox[|start|..] == announcement;
      }
      r := Answer("usernameCreated " + desiredUsername);
    }

    /** The effect of logout; with notDebug off the user leaves no board and nobody is told. */
    twostate predicate LoggedOut(tokens: seq<string>, notDebug: bool, r: Outcome)
      reads this, boards, PixelArrays()
    {
      if |tokens| != 2 then r == Raised(RuntimeError(UnknownUserError)) && Unchanged()
      else
        var u := tokens[1];
        boards == old(boards) && names == old(names) && clients == old(clients) - {u}
        && (forall j :: 0 <= j < |boards| ==> unchanged(boards[j].pixels))
        && (if notDebug then
              Users() == RemovedEverywhere(old(Users()), u)
              && exists announcement ::
               (AnnouncesUsers(announcement, clients)
                && outbox == old(outbox) + announcement + LeaveNotices(old(Users()), u, clients))
            else Users() == old(Users()) && outbox == old(outbox))
        && r == Answer(LogoutRequest)
    }

    /**
     * logout: disconnects the user, tells every client who is still online, then takes the user
     * off each board it is on, telling that board's users who remains.
     */
    method Logout(tokens: seq<string>, notDebug: bool) returns (r: Outcome)
      requires Valid()
      modifies this`clients, this`outbox, boards
      ensures Valid() && LoggedOut(tokens, notDebug, r)
    {
      if |tokens| != 2 {
        return Raised(RuntimeError(UnknownUserError));
      }
      Disconnect(tokens[1], notDebug);
      r := Answer(LogoutRequest);
    }

    /** The part of logout after the request is read. */
    method Disconnect(username: string, notDebug: bool)
      requires Valid()
      modifies this`clients, this`outbox, boards
      ensures clients == old(clients) - {username}
      ensures notDebug ==> Users() == RemovedEverywhere(old(Users()), username)
      ensures notDebug ==> exists announcement ::
        (AnnouncesUsers(announcement, clients)
         && outbox == old(outbox) + announcement + LeaveNotices(old(Users()), username, clients))
      ensures !notDebug ==> Users() == old(Users()) && outbox == old(outbox)
    {
      clients := clients - {username};
      if notDebug {
        ghost var announcement := AnnounceUsers();
        LeaveBoards(username);
      }
    }

    /**
     * What createUsername and logout share: the usernames online, each followed by a space, sent
     * after "allUsersOnline " to every client.
     */
    method AnnounceUsers() returns (ghost announcement: seq<Message>)
      modifies this`outbox
      ensures AnnouncesUsers(announcement, clients)
      ensures outbox == old(outbox) + announcement
    {
      var all, listed := GetAllUsernames();
      ghost var order := SendToAll("allUsersOnline " + all);
      announcement := Sends(Lookups(order, clients), "allUsersOnline " + all);
      assert Broadcast(announcement, clients, "allUsersOnline " + Listing(listed));
    }

    /** The loop of logout: the user leaves every board, in creation order. */
    method LeaveBoards(username: string)
      requires Valid()
      modifies this`outbox, boards
      ensures Users() == RemovedEverywhere(old(Users()), username)
      ensures outbox == old(outbox) + LeaveNotices(old(Users()), username, clients)
    {
      ghost var before := Users();
      var j := 0;
      while j < |boards|
        invariant 0 <= j <= |boards|
        invariant forall k :: 0 <= k < |boards| ==>
          boards[k].usernames == if k < j then RemoveFirst(before[k], username) else before[k]
        invariant outbox == old(outbox) + LeaveNotices(before[..j], username, clients)
      {
        LeaveStep(j, username, before, old(outbox));
        j := j + 1;
      }
      assert before[..j] == before;
      assert |Users()| == |RemovedEverywhere(before, username)|;
      assert forall k :: 0 <= k < |boards| ==> Users()[k] == RemovedEverywhere(before, username)[k];
    }

    /** One turn of the logout loop, stated in the terms of its invariants; before holds the user lists it started from. */
    method LeaveStep(j: nat, username: string, ghost before: seq<seq<string>>, ghost start: seq<Message>)
      requires Valid() && j < |boards| == |before|
      requires forall k :: 0 <= k < |boards| ==>
        boards[k].usernames == if k < j then RemoveFirst(before[k], username) else before[k]
      requires outbox == start + LeaveNotices(before[..j], username, clients)
      modifies this`outbox, boards[j]
      ensures forall k :: 0 <= k < |boards| ==>
        boards[k].usernames == if k < j + 1 then RemoveFirst(before[k], username) else before[k]
      ensures outbox == start + LeaveNotices(before[..j + 1], username, clients)
    {
      ghost var previous := outbox;
      LeaveBoard(j, username);
      NoticesStep(start, before, j, username, clients, previous, outbox);
    }

    /** One step of the logout loop: board j loses the user, if the user is on it, and its users are told who remains. */
    method LeaveBoard(j: nat, username: string)
      requires Valid() && j < |boards|
      modifies this`outbox, boards[j]
      ensures boards[j].usernames == RemoveFirst(old(boards[j].usernames), username)
      ensures outbox == old(outbox) + LeaveNotice(old(boards[j].usernames), username, clients)
      ensures forall k :: 0 <= k < |boards| && k != j ==> boards[k] != boards[j]
    {
      var whiteboard := boards[j];
      if whiteboard.HasUsername(username) {
        var usersOnWhiteboard := whiteboard.RemoveUsername(username);
        IndexOfDistinct(names, j);
        SendToSubscribers(whiteboard.GetName(), "usersOnWhiteboard " + usersOnWhiteboard);
      } else {
        RemoveFirstAt(whiteboard.usernames, username);
      }
    }

    /** The effect of closeWhiteboard. */
    twostate predicate Closed(tokens: seq<string>, r: Outcome)
      requires old(Valid())
      reads this, boards, PixelArrays()
    {
      if |tokens| != 3 then r == Raised(RuntimeError(InvalidInputError)) && Unchanged()
      else if tokens[2] !in old(names) then r == Raised(IndexOutOfBounds) && Unchanged()
      else
        var i := Lists.IndexOf(old(names), tokens[2]);
        boards == old(boards) && names == old(names) && clients == old(clients)
        && OthersUnchanged(i) && unchanged(boards[i].pixels)
        && boards[i].usernames == RemoveFirst(old(boards[i].usernames), tokens[1])
        && outbox == old(outbox) + Notice(i, "alsoediting " + Join(boards[i].usernames))
        && r == Answer("")
    }

    /** closeWhiteboard: the user leaves the named board, whose users are told who remains. */
    method CloseWhiteboard(tokens: seq<string>) returns (r: Outcome)
      requires Valid()
      modifies this`outbox, boards
      ensures Valid() && Closed(tokens, r)
    {
      if |tokens| != 3 {
        return Raised(RuntimeError(InvalidInputError));
      }
      var username, whiteboardName := tokens[1], tokens[2];
      var index := Lists.IndexOf(names, whiteboardName);
      if index == -1 {
        return Raised(IndexOutOfBounds);
      }
      CloseBoard(index, username);
      r := Answer("");
    }

    /** The part of closeWhiteboard after the board is found. */
    method CloseBoard(index: nat, username: string)
      requires Valid() && index < |boards|
      modifies this`outbox, boards[index]
      ensures boards[index].usernames == RemoveFirst(old(boards[index].usernames), username)
      ensures outbox == old(outbox) + Notice(index, "alsoediting " + Join(boards[index].usernames))
    {
      var whiteboard := boards[index];
      var usersOnWhiteboard := whiteboard.RemoveUsername(username);
      IndexOfDistinct(names, index);
      SendToSubscribers(whiteboard.GetName(), "alsoediting " + usersOnWhiteboard);
    }

    /** What getUsernamesOnWhiteboard answers. */
    ghost predicate UsersListed(tokens: seq<string>, r: Outcome)
      requires Valid()
      reads this, boards
    {
      if |tokens| < 2 then r == Raised(ArrayIndexOutOfBounds)
      else if tokens[1] !in names then r == Raised(IndexOutOfBounds)
      else r == Answer("alsoediting " + Join(boards[Lists.IndexOf(names, tokens[1])].usernames))
    }

    /** getUsernamesOnWhiteboard: the users of the named board, in the order they opened it. */
    method GetUsernamesOnWhiteboard(tokens: seq<string>) returns (r: Outcome)
      requires Valid()
      ensures UsersListed(tokens, r)
    {
      if |tokens| < 2 {
        return Raised(ArrayIndexOutOfBounds);
      }
      var whiteboardName := tokens[1];
      var index := Lists.IndexOf(names, whiteboardName);
      if index == -1 {
        return Raised(IndexOutOfBounds);
      }
      var usernames := boards[index].GetUsernames();
      r := Answer("alsoediting " + usernames);
    }

    /** The effect of drawWhiteboard. */
    twostate predicate Drawn(tokens: seq<string>, r: Outcome)
      requires old(Valid())
      reads this, boards, PixelArrays()
    {
      var fault := DrawFault(tokens, old(names));
      if fault.Some? then r == Raised(fault.value) && Unchanged()
      else
        var i := Lists.IndexOf(old(names), tokens[1]);
        var c := Color(IntAt(tokens, 6), IntAt(tokens, 7), IntAt(tokens, 8));
        var cells := Thicken(PointsOnLine(IntAt(tokens, 2), IntAt(tokens, 3), IntAt(tokens, 4), IntAt(tokens, 5)),
                             HalfWidth(IntAt(tokens, 9)), WidthOfWhiteboards, HeightOfWhiteboards);
        boards == old(boards) && names == old(names) && clients == old(clients)
        && OthersUnchanged(i) && boards[i].usernames == old(boards[i].usernames)
        && (forall y, x :: 0 <= y < HeightOfWhiteboards && 0 <= x < WidthOfWhiteboards ==>
              boards[i].pixels[y, x] == if Cell(x, y) in cells then c else old(boards[i].pixels[y, x]))
        && outbox == old(outbox) + Notice(i, "drawLine " + Reply(cells, c))
        && r == Answer("")
    }

    /**
     * drawWhiteboard: finds the board, parses the eight integers and makes the colour (each
     * step may throw), draws the line and tells the board's users the painted pixels.
     */
    method DrawWhiteboard(tokens: seq<string>) returns (r: Outcome)
      requires Valid()
      modifies this`outbox, PixelArrays()
      ensures Valid() && Drawn(tokens, r)
    {
      var fault := DrawFault(tokens, names);
      if fault.Some? {
        return Raised(fault.value);
      }
      var index := Lists.IndexOf(names, tokens[1]);
      var v := ParseDrawArguments(tokens, 2).values;
      DrawOnBoard(index, Color(v[4], v[5], v[6]), v[0], v[1], v[2], v[3], v[7]);
      r := Answer("");
    }

    /** The part of drawWhiteboard after the colour is made. */
    method DrawOnBoard(index: nat, c: Color, x1: int, y1: int, x2: int, y2: int, thickness: int)
      requires Valid() && index < |boards|
      modifies this`outbox, boards[index].pixels
      ensures var cells := Thicken(PointsOnLine(x1, y1, x2, y2), HalfWidth(thickness), WidthOfWhiteboards, HeightOfWhiteboards);
        (forall y, x :: 0 <= y < HeightOfWhiteboards && 0 <= x < WidthOfWhiteboards ==>
           boards[index].pixels[y, x] == if Cell(x, y) in cells then c else old(boards[index].pixels[y, x]))
        && outbox == old(outbox) + Notice(index, "drawLine " + Reply(cells, c))
    {
      var whiteboard := boards[index];
      var messageBack := whiteboard.AddLine(c, x1, y1, x2, y2, thickness);
      IndexOfDistinct(names, index);
      SendToSubscribers(whiteboard.GetName(), "drawLine " + messageBack);
    }

    /** The effect of resetWhiteboard. */
    twostate predicate Reset(tokens: seq<string>, r: Outcome)
      requires old(Valid())
      reads this, boards, PixelArrays()
    {
      if |tokens| < 2 then r == Raised(ArrayIndexOutOfBounds) && Unchanged()
      else if tokens[1] !in old(names) then r == Raised(IndexOutOfBounds) && Unchanged()
      else
        var i := Lists.IndexOf(old(names), tokens[1]);
        boards == old(boards) && names == old(names) && clients == old(clients)
        && OthersUnchanged(i) && boards[i].usernames == old(boards[i].usernames)
        && boards[i].Valid() && boards[i].Grid() == Blank(WidthOfWhiteboards, HeightOfWhiteboards)
        && outbox == old(outbox) + Notice(i, "reset")
        && r == Answer("")
    }

    /** resetWhiteboard: every pixel of the named board white again; its users are told. */
    method ResetWhiteboard(tokens: seq<string>) returns (r: Outcome)
      requires Valid()
      modifies this`outbox, PixelArrays()
      ensures Valid() && Reset(tokens, r)
    {
      if |tokens| < 2 {
        return Raised(ArrayIndexOutOfBounds);
      }
      var whiteboardName := tokens[1];
      var index := Lists.IndexOf(names, whiteboardName);
      if index == -1 {
        return Raised(IndexOutOfBounds);
      }
      ResetBoard(index);
      r := Answer("");
    }

    /** The part of resetWhiteboard after the board is found. */
    method ResetBoard(index: nat)
      requires Valid() && index < |boards|
      modifies this`outbox, boards[index].pixels
      ensures boards[index].Grid() == Blank(WidthOfWhiteboards, HeightOfWhiteboards)
      ensures outbox == old(outbox) + Notice(index, "reset")
    {
      var whiteboard := boards[index];
      whiteboard.ClearWhiteboard();
      IndexOfDistinct(names, index);
      SendToSubscribers(whiteboard.GetName(), "reset");
    }

    // -------------------------------------------------------------- dispatch

    /** The effect of handleRequest on one line from the client connected through socket. */
    twostate predicate Handled(input: string, socket: Socket, r: Outcome)
      requires old(Valid())
      reads this, boards, PixelArrays()
    {
      if !Matches(input) then r == Answer(InvalidInputError) && Unchanged()
      else Dispatched(Split(input), socket, r)
    }

    /** The effect of the handler the first token names. */
    twostate predicate Dispatched(tokens: seq<string>, socket: Socket, r: Outcome)
      requires old(Valid())
      reads this, boards, PixelArrays()
    {
      if |tokens| == 0 then r == Raised(ArrayIndexOutOfBounds) && Unchanged()
      else if tokens[0] == "create" then Created(tokens, r)
      else if tokens[0] == "username" then NamedUser(tokens, socket, true, r)
      else if tokens[0] == "open" then Opened(tokens, true, r)
      else if tokens[0] == "logout" then LoggedOut(tokens, true, r)
      else if tokens[0] == "close" then Closed(tokens, r)
      else DispatchedRest(tokens, r)
    }

    /** The later tests of the chain, which no handler that changes the users or clients follows. */
    twostate predicate DispatchedRest(tokens: seq<string>, r: Outcome)
      requires old(Valid()) && |tokens| > 0
      reads this, boards, PixelArrays()
    {
      if tokens[0] == "draw" then Drawn(tokens, r)
      else if tokens[0] == "list" then r == Answer("allwhiteboards " + Join(names)) && Unchanged()
      else if tokens[0] == "getUsersOnWhiteboard" then Unchanged() && old(UsersListed(tokens, r))
      else if tokens[0] == "reset" then Reset(tokens, r)
      else r == Raised(UnsupportedOperation) && Unchanged()
    }

    /**
     * handleRequest: a line outside the grammar is answered "Invalid input."; any other is split
     * at its spaces and handed to the handler its first word names. Every line the grammar
     * accepts names a handler, so the final exception is never thrown.
     */
    method HandleRequest(input: string, socket: Socket) returns (r: Outcome)
      requires Valid()
      modifies this, boards, PixelArrays()
      ensures Valid() && Handled(input, socket, r)
      ensures r != Raised(UnsupportedOperation)
      ensures "" !in old(clients) ==> "" !in clients
    {
      if !Matches(input) {
        return Answer(InvalidInputError);
      }
      MatchesDispatches(input);
      r := Dispatch(Split(input), socket);
    }

    /** The chain of tests on the first token in handleRequest. */
    method Dispatch(tokens: seq<string>, socket: Socket) returns (r: Outcome)
      requires Valid()
      requires |tokens| > 1 ==> tokens[|tokens| - 1] != ""
      modifies this, boards, PixelArrays()
      ensures Valid() && Dispatched(tokens, socket, r)
      ensures |tokens| > 0 && tokens[0] in Commands ==> r != Raised(UnsupportedOperation)
      ensures "" !in old(clients) ==> "" !in clients
    {
      if |tokens| == 0 {
        return Raised(ArrayIndexOutOfBounds);
      }
      if tokens[0] == "create" {
        r := CreateWhiteboard(tokens);
      } else if tokens[0] == "username" {
        r := CreateUsername(tokens, socket, true);
      } else if tokens[0] == "open" {
        r := OpenWhiteboard(tokens, true);
      } else if tokens[0] == "logout" {
        r := Logout(tokens, true);
      } else if tokens[0] == "close" {
        r := CloseWhiteboard(tokens);
      } else {
        r := DispatchRest(tokens);
      }
    }

    /** The tests of the chain after close. */
    method DispatchRest(tokens: seq<string>) returns (r: Outcome)
      requires Valid() && |tokens| > 0
      modifies this`outbox, PixelArrays()
      ensures Valid() && DispatchedRest(tokens, r)
      ensures tokens[0] in Commands[5..] ==> r != Raised(UnsupportedOperation)
    {
      if tokens[0] == "draw" {
        r := DrawWhiteboard(tokens);
      } else if tokens[0] == "list" {
        var all := GetAllWhiteboards();
        r := Answer("allwhiteboards " + all);
      } else if tokens[0] == "getUsersOnWhiteboard" {
        r := GetUsernamesOnWhiteboard(tokens);
      } else if tokens[0] == "reset" {
        r := ResetWhiteboard(tokens);
      } else {
        r := Raised(UnsupportedOperation);
      }
    }
  }
}
