/**
 * UsersOnlineWindowsCreatedTable: the two-column table of the client's main window, the
 * usernames online on the left and the whiteboards created on the right. The columns may have
 * different lengths; the shorter one reads as empty text below its end.
 */
module Table {
  import opened Wrappers

  const UsersOnlineHeader: string := "Users Online"
  const WhiteboardsCreatedHeader: string := "Whiteboards Created"

  class UsersOnlineWindowsCreatedTable {
    var usersOnline: seq<string>
    var windowsCreated: seq<string>

    /** A new table: each column holds a single blank. */
    constructor ()
      ensures usersOnline == [" "] && windowsCreated == [" "]
      ensures RowCount() == 1
    {
      usersOnline := [" "];
      windowsCreated := [" "];
    }

    /** getRowCount: as many rows as the longer column. */
    function RowCount(): (n: nat)
      reads this
      ensures |usersOnline| <= n && |windowsCreated| <= n
      ensures n == |usersOnline| || n == |windowsCreated|
    {
      if |usersOnline| >= |windowsCreated| then |usersOnline| else |windowsCreated|
    }

    /** getColumnCount: every column the table reports has a header. */
    function ColumnCount(): (n: nat)
      ensures forall c :: 0 <= c < n ==> ColumnName(c) != ""
    {
      2
    }

    /** The column getValueAt reads: column 0 is the users, every other index the whiteboards. */
    function Column(columnIndex: int): seq<string>
      reads this
    {
      if columnIndex == 0 then usersOnline else windowsCreated
    }

    /**
     * getValueAt: the entry of the column at that row, or empty text past the column's end;
     * a negative row throws ArrayIndexOutOfBounds (None).
     */
    function ValueAt(rowIndex: int, columnIndex: int): (v: Option<string>)
      reads this
      ensures v.None? <==> rowIndex < 0
      ensures 0 <= rowIndex < |Column(columnIndex)| ==> v == Some(Column(columnIndex)[rowIndex])
      ensures rowIndex >= |Column(columnIndex)| ==> v == Some("")
    {
      var column := Column(columnIndex);
      if rowIndex >= |column| then Some("")
      else if rowIndex < 0 then None
      else Some(column[rowIndex])
    }

    /** getColumnName: the two headers, and empty text for any other index. */
    function ColumnName(columnIndex: int): (name: string)
      ensures columnIndex == 0 ==> name == UsersOnlineHeader
      ensures columnIndex == 1 ==> name == WhiteboardsCreatedHeader
      ensures columnIndex != 0 && columnIndex != 1 ==> name == ""
    {
      if columnIndex == 0 then UsersOnlineHeader
      else if columnIndex == 1 then WhiteboardsCreatedHeader
      else ""
    }

    /** What the table shows in one column: its values in rows 0 .. RowCount() - 1. */
    function Shown(columnIndex: int): (shown: seq<string>)
      reads this
      ensures |shown| == RowCount()
    {
      seq(RowCount(), r requires 0 <= r < RowCount() reads this => ValueAt(r, columnIndex).value)
    }

    /** setUsersOnline: only the users column changes. */
    method SetUsersOnline(usernames: seq<string>)
      modifies this
      ensures usersOnline == usernames && windowsCreated == old(windowsCreated)
    {
      usersOnline := usernames;
    }

    /** setWhiteboardsCreated: only the whiteboards column changes. */
    method SetWhiteboardsCreated(whiteboards: seq<string>)
      modifies this
      ensures windowsCreated == whiteboards && usersOnline == old(usersOnline)
    {
      windowsCreated := whiteboards;
    }
  }

  /** Every column the table reports has a header of its own. */
  lemma HeadersOfColumns(t: UsersOnlineWindowsCreatedTable)
    ensures forall c :: 0 <= c < t.ColumnCount() ==> t.ColumnName(c) != ""
    ensures t.ColumnName(0) != t.ColumnName(1)
  {
    forall c | 0 <= c < t.ColumnCount() ensures t.ColumnName(c) != "" {
      assert c == 0 || c == 1;
    }
  }

  /**
   * Each column is shown entire and in order, followed by empty text down to the last row
   * of the longer column.
   */
  lemma ShownColumns(t: UsersOnlineWindowsCreatedTable, columnIndex: int)
    ensures var column := t.Column(columnIndex);
      t.Shown(columnIndex) == column + seq(t.RowCount() - |column|, _ => "")
  {
    var column := t.Column(columnIndex);
    var padded := column + seq(t.RowCount() - |column|, _ => "");
    assert forall r :: 0 <= r < t.RowCount() ==> t.Shown(columnIndex)[r] == padded[r];
  }
}
