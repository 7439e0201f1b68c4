# Collaborative whiteboard: a verified model

The modelled system is a collaborative whiteboard. A Java server keeps the whiteboards created during a
session. Each board is an 800-by-600 grid of pixel colours together with the usernames that
have it open. The server also keeps the connected clients by username. It answers one text line
at a time (`create`, `username`, `open`, `logout`, `close`, `draw`, `list`,
`getUsersOnWhiteboard`, `reset`) and tells the affected clients what changed. Clients keep a few
fields of their own and show a two-column table of the users online and the whiteboards
created.

The model follows the program's classes:

- `Points`: `java.awt.Color` as an RGB triple, the `Point` class, and the `"x y r g b"` pixel text with its decoder.
- `Raster`: the line walk of `getPointsOnLine` and the thickening of `addLine`, as pure definitions.
- `Boards`: the `Whiteboard` class, with its pixels in an `array2` and its user list. Its methods loop as the Java does, and each is proved against the `Raster` and `Boards` definitions.
- `Grammar`: a recogniser for the regular expression `handleRequest` matches.
- `Server`: the `WhiteboardServer` class. Its fields are `boards`, `names`, `clients` and an `outbox` holding every line written to a client socket, in order. There is one method per handler, plus a twostate predicate stating each handler's effect.
- `Table`: `UsersOnlineWindowsCreatedTable`.
- `Client`: the non-GUI part of `WhiteboardClient`.
- `Text`, `Lists` and `Wrappers`: the JDK behaviour the code relies on. This covers `String.split(" ")`, `trim`, `indexOf`, `Integer.parseInt`, int-to-decimal concatenation, `ArrayList.indexOf`/`remove`, and `Option` for null or a thrown exception.

Java exceptions that escape a server handler are the `Raised` outcome. In every such case the
model proves the server state unchanged. Client code that would throw answers `false` (or `None`)
and changes nothing.

The server's `handleRequest` runs its handlers with `notDebug` set. The model keeps that flag as
a parameter, so the non-broadcasting variant the Java tests use is specified too.

## Model

| member | source | states |
|---|---|---|
| Text.IntToString | src/model/Point.java:95 | the decimal text of an int is non-empty and holds no space |
| Text.ParseInt | src/server/WhiteboardServer.java:621-624 | Integer.parseInt yields only values in the 32-bit int range; None is the NumberFormatException |
| Text.ParseIntToString | src/model/Point.java:95 | parsing the decimal text of any int gives back that int |
| Text.NatToStringValue | src/model/Point.java:95 | the digits of a natural number's text have that number as their value |
| Text.IndexOf | src/client/WhiteboardClient.java:327 | String.indexOf: -1 exactly when the character is absent, else the first position holding it |
| Text.IndexOfFrom | src/client/WhiteboardClient.java:341 | String.indexOf(c, from): -1 exactly when no position from `from` on holds c, else the first such position |
| Text.Split | src/server/WhiteboardServer.java:280 | the pieces of split(" ") hold no space and the last of several is non-empty |
| Text.JoinPieces | src/server/WhiteboardServer.java:280 | joining the raw pieces at the spaces gives back the line |
| Text.SplitJoin | src/server/WhiteboardServer.java:330 | splitting a space-joined list of spaceless words, the last non-empty, gives back the words |
| Text.PiecesJoin | src/server/WhiteboardServer.java:330 | the raw pieces of a space-joined list of spaceless words are the words |
| Text.Trim | src/client/WhiteboardClient.java:262 | trim removes exactly the leading and trailing characters up to U+0020; what remains starts and ends above U+0020 |
| Text.TrimPadded | src/client/WhiteboardClient.java:262 | trimming a text padded by one space on each side gives back the text |
| Lists.IndexOf | src/server/WhiteboardServer.java:325 | ArrayList.indexOf: -1 exactly when absent, else the first position holding the element |
| Lists.RemoveFirstAt | src/model/Whiteboard.java:134-137 | remove(Object) cuts out exactly the first occurrence and leaves a list without the element unchanged |
| Lists.RemoveFirstContents | src/model/Whiteboard.java:134-137 | remove takes exactly one copy of the element out of the contents, and only when it is there |
| Lists.AppendThenRemove | src/model/Whiteboard.java:120-137 | adding a name a list lacks and then removing it restores the list |
| Points.DecodeEncode | src/model/Point.java:94-96 | the pixel text "x y r g b" decodes to exactly the coordinates and colour it was made from |
| Points.CyanText | src/model/PointTest.java:66-69 | the cyan point at (2, 3) has the text "2 3 0 255 255" |
| Points.Point.constructor | src/model/Point.java:39-43 | the getters return the constructor's coordinates and colour |
| Points.Point.GetX | src/model/Point.java:50-52 | the x-coordinate; no contract of its own, the constructor's ensures fix its value |
| Points.Point.GetY | src/model/Point.java:59-61 | the y-coordinate; no contract of its own, the constructor's ensures fix its value |
| Points.Point.GetColor | src/model/Point.java:68-70 | the colour; no contract of its own, the constructor's and SetColor's ensures fix its value |
| Points.Point.SetColor | src/model/Point.java:78-81 | after setColor the colour is the new one, and the answer is the point's text |
| Points.Point.ToString | src/model/Point.java:94-96 | a point's text decodes to its own coordinates and colour |
| Raster.Round | src/model/Whiteboard.java:317 | Math.round lands within one half of its argument, a half rounding up |
| Raster.Trunc | src/model/Whiteboard.java:338 | the (int) cast drops the fraction toward zero and keeps the sign |
| Raster.HalfWidth | src/model/Whiteboard.java:238 | thickness / 2 with Java's truncating division |
| Raster.SteepIffTaller | src/model/Whiteboard.java:300-303 | the slope test abs(slope) >= 1 holds exactly when the segment is at least as tall as it is wide |
| Raster.WalkShape | src/model/Whiteboard.java:281-347 | the walk starts at (x1, y1) and ends at (x2, y2); its length is abs(y2-y1)+1 for vertical and steep segments and abs(x2-x1)+1 otherwise |
| Raster.StraightWalks | src/model/WhiteboardTest.java:173-195 | the vertical and horizontal walks of the tests, and the downward one of the test at lines 297-311 |
| Raster.ShallowWalks | src/model/WhiteboardTest.java:199-209 | the shallow walk truncates y: (0,3) to (4,5) in both directions |
| Raster.SteepWalkExample | src/model/WhiteboardTest.java:316-331 | the steep walk rounds x: (1,4) to (0,0) gives (1,4),(1,3),(1,2),(0,1),(0,0) |
| Raster.ThickenCells | src/model/Whiteboard.java:238-259 | the cells addLine selects are exactly the grid cells within thickness/2 of some walked point, listed without repeats |
| Raster.WithSquareFacts | src/model/Whiteboard.java:245-258 | the square around one walked point adds exactly the in-grid cells near it, keeping earlier cells in order and once each |
| Boards.Blank | src/model/Whiteboard.java:82-86 | a blank grid has the board's shape |
| Boards.SnapshotEmpty | src/model/Whiteboard.java:398-411 | the board text is empty exactly when every pixel is white |
| Boards.DiagonalCells | src/model/WhiteboardTest.java:342-347 | the blue diagonal of thickness 1 on a 2-by-2 board selects (0,0) then (1,1) |
| Boards.DiagonalReply | src/model/WhiteboardTest.java:342-350 | the text addLine answers for that diagonal |
| Boards.DiagonalGrid | src/model/WhiteboardTest.java:342-347 | the 2-by-2 board after that line: blue on the diagonal, white elsewhere |
| Boards.DiagonalSnapshot | src/model/WhiteboardTest.java:342-352 | toString of that board is "0 0 0 0 255 " + "1 1 0 0 255 " |
| Boards.BlueTexts | src/model/WhiteboardTest.java:349-350 | the texts of the two blue pixels |
| Boards.TopRowText | src/model/WhiteboardTest.java:349 | the text of that board's top row |
| Boards.BottomRowText | src/model/WhiteboardTest.java:350 | the text of that board's bottom row |
| Boards.GetPointsOnLine | src/model/Whiteboard.java:281-347 | the three loops (vertical, steep, shallow) and the final endpoint produce exactly the walk Raster.PointsOnLine defines |
| Boards.MarkColumn | src/model/Whiteboard.java:251-257 | the innermost loop adds the unseen cells of one column in row order and keeps the boolean matrix in step with the selected list |
| Boards.MarkSquare | src/model/Whiteboard.java:245-258 | the middle loops add the clipped square of one walked point, keeping the matrix in step |
| Boards.SelectCells | src/model/Whiteboard.java:229-259 | the cleared matrix and the loop over the walk select exactly Raster.Thicken of the walk |
| Boards.Whiteboard.constructor | src/model/Whiteboard.java:75-87 | a new board has the given name, width and height, every pixel white and no users |
| Boards.Whiteboard.GetName | src/model/Whiteboard.java:155-157 | the name; no contract of its own, the constructor's ensures fix its value |
| Boards.Whiteboard.GetHeight | src/model/Whiteboard.java:164-166 | the height is the number of rows of the pixel array |
| Boards.Whiteboard.GetWidth | src/model/Whiteboard.java:173-175 | the width is the number of columns of the pixel array |
| Boards.Whiteboard.GetUsernames | src/model/Whiteboard.java:96-110 | the usernames joined by single spaces, with no trailing space |
| Boards.Whiteboard.AddUsername | src/model/Whiteboard.java:120-123 | the user is appended, duplicates allowed, and the answer is the new list's text |
| Boards.Whiteboard.RemoveUsername | src/model/Whiteboard.java:134-137 | the first occurrence is removed (an absent user changes nothing), and the answer is the new list's text |
| Boards.Whiteboard.HasUsername | src/model/Whiteboard.java:146-148 | the user is on the board exactly when removing the user would change the list |
| Boards.Whiteboard.GetColor | src/model/Whiteboard.java:201-204 | the colour of pixel (x, y) is the grid's entry in row y and column x |
| Boards.Whiteboard.SetColor | src/model/Whiteboard.java:187-190 | exactly pixel (x, y) is repainted, and the answer is its text |
| Boards.Whiteboard.ColorPoints | src/model/Whiteboard.java:363-376 | exactly the listed pixels get the colour, and the answer is their texts in list order, each followed by one space |
| Boards.Whiteboard.AddLine | src/model/Whiteboard.java:227-263 | every grid cell within thickness/2 of the walk is painted and no other pixel changes; the answer lists those cells' texts |
| Boards.Whiteboard.ClearWhiteboard | src/model/Whiteboard.java:383-389 | every pixel white again, so the board text is empty |
| Boards.Whiteboard.RowString | src/model/Whiteboard.java:402-407 | the inner loop reads row y left to right and appends "x y r g b " for each non-white pixel |
| Boards.Whiteboard.ToString | src/model/Whiteboard.java:398-411 | the non-white pixels in row-major order (y outer, x inner), each as "x y r g b " |
| Grammar.MatchesDispatches | src/server/WhiteboardServer.java:274-309 | every line the grammar accepts splits into pieces whose first is a handled command, so UnsupportedOperationException is unreachable |
| Grammar.SplitKeyword | src/server/WhiteboardServer.java:280-281 | a line starting with a keyword and a space splits with that keyword first |
| Grammar.CreateExample | src/server/WhiteboardServer.java:274-275 | "create board" matches |
| Grammar.OpenExample | src/server/WhiteboardServer.java:274-275 | "open alice board" matches |
| Grammar.CloseExample | src/server/WhiteboardServer.java:274-275 | "close alice my board" matches: a text may hold spaces |
| Grammar.ListExample | src/server/WhiteboardServer.java:274-275 | "list" matches and "list " does not |
| Grammar.RejectBareKeyword | src/server/WhiteboardServer.java:274-275 | "create" alone does not match |
| Grammar.RejectUnknown | src/server/WhiteboardServer.java:274-275 | an unknown command does not match |
| Grammar.RejectMissingText | src/server/WhiteboardServer.java:274-275 | "open board" (one text missing) does not match |
| Grammar.JoinedNumerals | src/server/WhiteboardServer.java:274 | a text joined by single spaces to numerals has the shape of the draw arguments |
| Grammar.DrawAccepted | src/server/WhiteboardServer.java:274 | a draw line with a board name and eight numerals matches |
| Server.SocketsOfMembers | src/server/WhiteboardServer.java:333-334 | a socket is written to exactly when some listed user is connected through it |
| Server.SocketsOfConnected | src/server/WhiteboardServer.java:333-344 | when every listed user is connected, each gets exactly one line, in list order |
| Server.SocketsOfSplitJoin | src/server/WhiteboardServer.java:330 | re-splitting a board's joined user list reaches the same connected users, provided nobody is connected as "" |
| Server.SocketsOfDropTrailingEmpty | src/server/WhiteboardServer.java:330 | the empty pieces split drops reach no socket when nobody is connected as "" |
| Server.ListingJoin | src/server/WhiteboardServer.java:663-672 | the getAllUsernames text is the usernames joined by spaces plus one trailing space |
| Server.ParseDrawArguments | src/server/WhiteboardServer.java:621-624 | parsing tokens 2..9 in order succeeds exactly when each is present and an int; otherwise the first token that is missing or not an int decides the exception: ArrayIndexOutOfBounds when it is missing, NumberFormat when it is malformed |
| Server.DrawFault | src/server/WhiteboardServer.java:611-627 | drawWhiteboard throws exactly when the name is missing, the board unknown, an int missing or malformed, or a colour component outside 0..255 |
| Server.WhiteboardServer.constructor | src/server/WhiteboardServer.java:85-90 | a new server has no boards, no names and no clients, and satisfies the representation invariant |
| Server.WhiteboardServer.CheckRep | src/server/WhiteboardServer.java:164-172 | checkRep answers whether every board's name is its entry in names, throws when names runs short, and is true under the invariant every handler keeps |
| Server.WhiteboardServer.GetNames | src/server/WhiteboardServer.java:183-186 | the board names in creation order |
| Server.WhiteboardServer.GetAllWhiteboards | src/server/WhiteboardServer.java:413-426 | the board names in creation order joined by single spaces, "" when there are none |
| Server.WhiteboardServer.GetAllUsernames | src/server/WhiteboardServer.java:663-672 | every connected username exactly once, each followed by a space, in some key-set order |
| Server.WhiteboardServer.SendToSubscribers | src/server/WhiteboardServer.java:323-347 | the text goes to each connected user of the named board in list order, and to nobody when there is no such board |
| Server.WhiteboardServer.SendToUsers | src/server/WhiteboardServer.java:333-344 | the loop writes the text to each listed user that is connected, skipping the others |
| Server.WhiteboardServer.SendToAll | src/server/WhiteboardServer.java:355-368 | the text goes once to every connected client |
| Server.WhiteboardServer.CreateWhiteboard | src/server/WhiteboardServer.java:380-403 | a wrong token count or a taken name gets its error text and changes nothing; otherwise a blank 800-by-600 board is appended to both lists, every client is told the new list, and the answer is "whiteboardcreated " + name |
| Server.WhiteboardServer.AddWhiteboard | src/server/WhiteboardServer.java:393-398 | the new board is appended, the invariant is kept, and the board list is broadcast |
| Server.WhiteboardServer.OpenWhiteboard | src/server/WhiteboardServer.java:441-467 | a wrong token count or an unknown board gets NOT_CREATED_ERROR and changes nothing; otherwise the user is appended to that board only, its users are told, and the answer is "open " + name + " " + the board text |
| Server.WhiteboardServer.OpenBoard | src/server/WhiteboardServer.java:457-464 | the user joins the board and its users are told when notDebug holds; the answer is the board text |
| Server.WhiteboardServer.CreateUsername | src/server/WhiteboardServer.java:482-504 | a wrong token count or a taken name gets its error text and changes nothing; otherwise the client is added under that name, every client is told who is online, and the answer is "usernameCreated " + name |
| Server.WhiteboardServer.AnnounceUsers | src/server/WhiteboardServer.java:495 | "allUsersOnline " followed by the getAllUsernames text goes once to every client |
| Server.WhiteboardServer.Logout | src/server/WhiteboardServer.java:518-542 | a wrong token count throws and changes nothing; otherwise the client is removed, everybody is told who remains online, the user leaves every board it is on, and the answer is "logout" |
| Server.WhiteboardServer.Disconnect | src/server/WhiteboardServer.java:523-539 | the client is removed, then the online users are announced and the user leaves each board, when notDebug holds |
| Server.WhiteboardServer.LeaveBoards | src/server/WhiteboardServer.java:532-537 | after the loop every board has lost the first occurrence of the user, and each board the user was on has told its remaining users, in creation order, with "usersOnWhiteboard " |
| Server.WhiteboardServer.LeaveStep | src/server/WhiteboardServer.java:532-537 | one turn of that loop keeps both of its invariants |
| Server.WhiteboardServer.LeaveBoard | src/server/WhiteboardServer.java:533-536 | one board loses the user, and its users are told who remains, only when the user was on it |
| Server.WhiteboardServer.CloseWhiteboard | src/server/WhiteboardServer.java:556-574 | a wrong token count or unknown board throws and changes nothing; otherwise the user leaves that board only, its users are told with "alsoediting ", and the answer is "" |
| Server.WhiteboardServer.CloseBoard | src/server/WhiteboardServer.java:566-570 | the board loses the first occurrence of the user and its users are told who remains |
| Server.WhiteboardServer.GetUsernamesOnWhiteboard | src/server/WhiteboardServer.java:587-595 | "alsoediting " and the named board's users, or the exception for a missing name or unknown board |
| Server.WhiteboardServer.DrawWhiteboard | src/server/WhiteboardServer.java:611-631 | a faulty line throws and changes nothing; otherwise the line is drawn on the named board only, its users get "drawLine " and the painted pixels' texts, and the answer is "" |
| Server.WhiteboardServer.DrawOnBoard | src/server/WhiteboardServer.java:627-628 | the board's pixels change exactly as addLine states and its users are told |
| Server.WhiteboardServer.ResetWhiteboard | src/server/WhiteboardServer.java:643-656 | a missing name or unknown board throws and changes nothing; otherwise that board alone becomes blank, its users get "reset", and the answer is "" |
| Server.WhiteboardServer.ResetBoard | src/server/WhiteboardServer.java:647-652 | the board becomes blank and its users are told |
| Server.WhiteboardServer.HandleRequest | src/server/WhiteboardServer.java:273-310 | a line outside the grammar gets "Invalid input." and changes nothing; any other goes to the handler its first word names, whose effect is stated; the invariant is kept; the final exception is never thrown; a server without a client named "" never gets one |
| Server.WhiteboardServer.Dispatch | src/server/WhiteboardServer.java:280-309 | the chain of tests hands the tokens to the handler the first token names |
| Server.WhiteboardServer.DispatchRest | src/server/WhiteboardServer.java:296-309 | the tests after close: draw, list, getUsersOnWhiteboard and reset |
| Table.UsersOnlineWindowsCreatedTable.constructor | src/client/UsersOnlineWindowsCreatedTable.java:28-31 | both columns hold one blank, so the table has one row |
| Table.UsersOnlineWindowsCreatedTable.RowCount | src/client/UsersOnlineWindowsCreatedTable.java:34-36 | the row count is the larger of the two column lengths |
| Table.UsersOnlineWindowsCreatedTable.ColumnCount | src/client/UsersOnlineWindowsCreatedTable.java:39-41 | every one of the getColumnCount columns has a non-empty header |
| Table.UsersOnlineWindowsCreatedTable.ValueAt | src/client/UsersOnlineWindowsCreatedTable.java:44-64 | column 0 reads the users and any other column the whiteboards: the entry at the row, "" past the column's end, and an exception for a negative row |
| Table.UsersOnlineWindowsCreatedTable.ColumnName | src/client/UsersOnlineWindowsCreatedTable.java:67-75 | "Users Online" for 0, "Whiteboards Created" for 1, "" otherwise |
| Table.UsersOnlineWindowsCreatedTable.Shown | src/client/UsersOnlineWindowsCreatedTable.java:34-64 | a column as the table shows it has one entry per row |
| Table.UsersOnlineWindowsCreatedTable.SetUsersOnline | src/client/UsersOnlineWindowsCreatedTable.java:84-87 | only the users column changes |
| Table.UsersOnlineWindowsCreatedTable.SetWhiteboardsCreated | src/client/UsersOnlineWindowsCreatedTable.java:96-99 | only the whiteboards column changes |
| Table.HeadersOfColumns | src/client/UsersOnlineWindowsCreatedTable.java:39-75 | each of the getColumnCount columns has a non-empty header, and the two differ |
| Table.ShownColumns | src/client/UsersOnlineWindowsCreatedTable.java:34-64 | each column is shown whole and in order, padded with "" down to the longer column's length |
| Client.StringAfterSpace | src/client/WhiteboardClient.java:326-330 | the suffix from the first space, space included; with no space, substring(-1) throws |
| Client.StringAfterSecondSpace | src/client/WhiteboardClient.java:339-344 | the suffix from the second space, space included; with fewer than two spaces it throws |
| Client.BeforeAndAfterSpace | src/client/WhiteboardClient.java:326-330 | the part before the first space followed by getStringAfterSpace is the whole text |
| Client.AfterKeyword | src/client/WhiteboardClient.java:326-330 | after a spaceless keyword and a space, getStringAfterSpace is that space and the rest |
| Client.SecondSpaceOfRest | src/client/WhiteboardClient.java:339-344 | the suffix from the second space is getStringAfterSpace of what follows the first space, throwing in the same cases |
| Client.WhiteboardClient.constructor | src/client/WhiteboardClient.java:69-76 | no username, no users list, no whiteboard, nothing open |
| Client.WhiteboardClient.HasWhiteboardOpen | src/client/WhiteboardClient.java:352-354 | the hasWhiteboardOpen field; no contract of its own, the constructor's, CloseWhiteboardGUI's and OpenedWhiteboard's ensures fix its value |
| Client.WhiteboardClient.CloseWhiteboardGUI | src/client/WhiteboardClient.java:372-376 | no whiteboard, and hasWhiteboardOpen() is false |
| Client.WhiteboardClient.UsernameCreated | src/client/WhiteboardClient.java:249-253 | the second token becomes the username and the main window is open; a one-token line throws and changes nothing |
| Client.WhiteboardClient.AllUsersOnline | src/client/WhiteboardClient.java:261-262 | the users list is the text after the first space, trimmed and split at single spaces; a line without a space throws and changes nothing |
| Client.WhiteboardClient.OpenedWhiteboard | src/client/WhiteboardClient.java:280-293 | the second token is the open whiteboard and hasWhiteboardOpen() is true; a one-token line throws and changes nothing |
| Client.UsersOnlineRoundTrip | src/server/WhiteboardServer.java:495 | a client reads the allUsersOnline line the server builds back as exactly the usernames, in the order the server listed them, when each name is non-empty and has no character at or below U+0020 |

## Left out

- Sockets, threads, the accept loop and `synchronized`: `serve`, `handleConnection`, `main` and the `ServerSocket` of the server, and `sendMessage` and the connection thread of the client. The model is sequential. A line written to a socket is a `Message` appended to the server's `outbox`, and a socket is only an identity.
- All GUI code: the `WhiteBoardGUI`, `ClientUsername` and `ClientService` windows, `openClientInterface`, `setUsersOnLine`, and the window creation in the client's `handleRequest`. The table's `fireTableDataChanged` calls are left out too.
- The client's other `handleRequest` branches (`usernameerror`, `whiteboardnameerror`, `allwhiteboards`, `alsoediting`, `drawLine`, `reset`). They only pass text to windows.
- The client's regular expression is declared but never used, so it is not modelled.
- The `open` branch's board text and its `getUsersOnWhiteboard` request go only to windows and the socket; they are left out.
- Floating point: `getPointsOnLine` accumulates `float` slopes. The model uses exact `real` arithmetic, so a long line could differ from Java where float rounding error builds up. Raster.StraightWalks, Raster.ShallowWalks, Raster.SteepWalkExample and Boards.DiagonalCells prove that the segments of WhiteboardTest give the expected points; their slopes are exact in binary floating point.
- The Java regex engine: the grammar is a hand-written recogniser of exactly that expression. `Integer.parseInt` accepts only ASCII digits here; Java also accepts other Unicode digits.
- `Points.Encode`: Java's `Color.getRed` and similar calls are taken to return the stored components; colours outside 0..255 cannot arise, because `new Color` throws first.
- `java.awt.Color` is an RGB triple; alpha is not modelled.
- Each pixel is stored as its colour in an `array2<Color>`, not as a `Point` object. The `Point` class is modelled on its own, and its text is the same `Points.Encode`.
- 32-bit overflow: coordinates and thicknesses are unbounded integers. The int range is modelled only where `parseInt` bounds the values it accepts.
- `Server.WhiteboardServer.GetAllUsernames`: the `HashMap` key-set order is unspecified, so the contract fixes no order. It states only that every username appears exactly once.
- `Server.WhiteboardServer.SendToAll`: for the same reason, the contract states only that the lines go out in some enumeration of the key set, not which one. Java walks the same unchanged `clients.keySet()` both when it builds the `getAllUsernames` text and when it sends the resulting `allUsersOnline` line (src/server/WhiteboardServer.java:356 and 665). `Server.AnnouncesUsers` picks the listing order and the send order independently, so it also admits two different orders. This over-approximates Java's behaviour, and everything proved about it still holds for Java's one order.
- `Server.SocketsOfSplitJoin`: it assumes no client is connected as "". `Server.WhiteboardServer.HandleRequest` proves that the grammar never lets such a name in.
- The exceptions Java throws are named by kind only. `ArrayList.get(-1)` is `IndexOutOfBounds` and an array index past the end is `ArrayIndexOutOfBounds`; messages are not modelled, except the two `RuntimeException` texts.
- Some operations are split into helper methods the Java does not have. On the board, these are `RowString`, `MarkColumn`, `MarkSquare` and `SelectCells`. On the server, they are `AddWhiteboard`, `OpenBoard`, `Disconnect`, `AnnounceUsers`, `LeaveBoards`, `LeaveStep`, `LeaveBoard`, `CloseBoard`, `DrawOnBoard`, `ResetBoard`, `Dispatch`, `DispatchRest` and `SendToUsers`. Each holds a contiguous part of one Java method, and the Java work is done in the same order.
- `drawWhiteboard` checks for every exception it can throw before it changes anything. The model tests for them first, through `Server.DrawFault`, in the same order.
- The client methods do not restate in their `ensures` that the other fields keep their values. Each `modifies` clause names the fields the method may change.

## Findings

None.
