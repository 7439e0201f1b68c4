/**
 * Colours and the Point class of the whiteboard model: a pixel position with a mutable colour,
 * and the "x y r g b" text by which a pixel travels between server and clients.
 */
module Points {
  import opened Wrappers
  import opened Text

  /** java.awt.Color reduced to its red, green and blue components. */
  datatype Color = Color(red: int, green: int, blue: int)

  /** The components the java.awt.Color constructor accepts. */
  predicate ValidColor(c: Color)
  {
    0 <= c.red <= 255 && 0 <= c.green <= 255 && 0 <= c.blue <= 255
  }

  /** Color.WHITE, the colour of an untouched pixel. */
  const White: Color := Color(255, 255, 255)

  predicate InIntRange(n: int) { IntMin <= n <= IntMax }

  /** The text of a pixel: its coordinates and colour components in decimal, single-space separated. */
  function Encode(x: int, y: int, c: Color): string
  {
    IntToString(x) + " " + IntToString(y) + " " + IntToString(c.red) + " "
      + IntToString(c.green) + " " + IntToString(c.blue)
  }

  /** Reading a pixel text back into its coordinates and colour. */
  function Decode(s: string): Option<(int, int, Color)>
  {
    var f := Split(s);
    if |f| != 5 then None
    else if ParseInt(f[0]).None? || ParseInt(f[1]).None? || ParseInt(f[2]).None?
      || ParseInt(f[3]).None? || ParseInt(f[4]).None? then None
    else Some((ParseInt(f[0]).value, ParseInt(f[1]).value,
               Color(ParseInt(f[2]).value, ParseInt(f[3]).value, ParseInt(f[4]).value)))
  }

  /** The five numbers of a pixel text, in order. */
  function Fields(x: int, y: int, c: Color): seq<string>
  {
    [IntToString(x), IntToString(y), IntToString(c.red), IntToString(c.green), IntToString(c.blue)]
  }

  /** A pixel text is its five numbers joined by single spaces. */
  lemma EncodeJoin(x: int, y: int, c: Color)
    ensures Encode(x, y, c) == Join(Fields(x, y, c))
  {
    var f := Fields(x, y, c);
    assert Join(f[4..]) == f[4];
    assert Join(f[3..]) == f[3] + " " + Join(f[4..]);
    assert Join(f[2..]) == f[2] + " " + Join(f[3..]);
    assert Join(f[1..]) == f[1] + " " + Join(f[2..]);
    assert Join(f) == f[0] + " " + Join(f[1..]);
  }

  /** The pixel text is unambiguous: decoding it gives back the pixel it was made from. */
  lemma DecodeEncode(x: int, y: int, c: Color)
    requires InIntRange(x) && InIntRange(y)
    requires InIntRange(c.red) && InIntRange(c.green) && InIntRange(c.blue)
    ensures Decode(Encode(x, y, c)) == Some((x, y, c))
  {
    var f := Fields(x, y, c);
    EncodeJoin(x, y, c);
    SplitJoin(f);
    ParseIntToString(x);
    ParseIntToString(y);
    ParseIntToString(c.red);
    ParseIntToString(c.green);
    ParseIntToString(c.blue);
  }

  /** The text of the cyan point at (2, 3). */
  lemma CyanText()
    ensures Encode(2, 3, Color(0, 255, 255)) == "2 3 0 255 255"
  {
    assert IntToString(255) == "255" by { assert NatToString(25) == "25"; }
    assert IntToString(2) == "2" && IntToString(3) == "3" && IntToString(0) == "0";
  }

  /** One pixel of a whiteboard: fixed coordinates and a colour that can be repainted. */
  class Point {
    const x: int
    const y: int
    var color: Color

    constructor (x: int, y: int, color: Color)
      ensures GetX() == x && GetY() == y && GetColor() == color
    {
      this.x := x;
      this.y := y;
      this.color := color;
    }

    function GetX(): int { x }

    function GetY(): int { y }

    function GetColor(): Color
      reads this
    {
      color
    }

    /** Repaints the point and answers its new text. */
    method SetColor(newColor: Color) returns (s: string)
      modifies this
      ensures GetColor() == newColor
      ensures s == ToString()
    {
      color := newColor;
      s := ToString();
    }

    /** The point's text, which decodes to exactly its coordinates and colour. */
    function ToString(): (s: string)
      reads this
      ensures InIntRange(x) && InIntRange(y) && ValidColor(color) ==> Decode(s) == Some((x, y, color))
    {
      var s := Encode(x, y, color);
      assert InIntRange(x) && InIntRange(y) && ValidColor(color) ==> Decode(s) == Some((x, y, color)) by {
        if InIntRange(x) && InIntRange(y) && ValidColor(color) { DecodeEncode(x, y, color); }
      }
      s
    }
  }
}
