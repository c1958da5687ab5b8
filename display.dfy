/** What `atualiza_display` puts on the OLED panel: the panel is cleared, three
    strings are drawn at fixed positions and the frame is sent. */
module Display {
  import opened Words

  /** A string drawn with its top-left pixel at (x, y). */
  datatype Text = Text(s: string, x: nat, y: nat)

  /** The strings on the panel after the last frame was sent. */
  datatype Frame = Frame(texts: seq<Text>)

  /** The panel as `display_init` leaves it: every pixel off. */
  const BLANK: Frame := Frame([])

  const BLUE_ON: string := "AZUL LIGADO"
  const BLUE_OFF: string := "AZUL DESLIGADO"
  const GREEN_ON: string := "VERDE LIGADO"
  const GREEN_OFF: string := "VERDE DESLIGADO"

  /** The C string `{c, '\0'}`: a NUL character ends it at once, so it is empty. */
  function CharString(c: u8): (r: string)
    ensures |r| <= 1
    ensures r == [] <==> c == 0
    ensures r != [] ==> r[0] as int == c
  {
    if c == 0 then "" else [c as char]
  }

  /** The frame drawn for LED levels `blue`, `green` and last host byte `c`. */
  function Render(blue: bool, green: bool, c: u8): Frame
  {
    Frame([
      Text(if blue then BLUE_ON else BLUE_OFF, 5, 10),
      Text(if green then GREEN_ON else GREEN_OFF, 5, 30),
      Text(CharString(c), 62, 50)
    ])
  }

  /** The three lines and their positions, each tied to the state it reports. */
  lemma RenderShowsState(blue: bool, green: bool, c: u8)
    ensures |Render(blue, green, c).texts| == 3
    ensures Render(blue, green, c).texts[0].x == 5 && Render(blue, green, c).texts[0].y == 10
    ensures Render(blue, green, c).texts[1].x == 5 && Render(blue, green, c).texts[1].y == 30
    ensures Render(blue, green, c).texts[2].x == 62 && Render(blue, green, c).texts[2].y == 50
    ensures Render(blue, green, c).texts[0].s == BLUE_ON <==> blue
    ensures Render(blue, green, c).texts[0].s == BLUE_OFF <==> !blue
    ensures Render(blue, green, c).texts[1].s == GREEN_ON <==> green
    ensures Render(blue, green, c).texts[1].s == GREEN_OFF <==> !green
    ensures Render(blue, green, c).texts[2].s == CharString(c)
  {
  }

  /** The drawn strings determine the state: two different states never make the same draw calls.
      (On the pixels themselves a space and a NUL both leave line 3 blank.) */
  lemma RenderInjective(blue1: bool, green1: bool, c1: u8, blue2: bool, green2: bool, c2: u8)
    requires Render(blue1, green1, c1) == Render(blue2, green2, c2)
    ensures blue1 == blue2 && green1 == green2 && c1 == c2
  {
    var f1, f2 := Render(blue1, green1, c1), Render(blue2, green2, c2);
    assert f1.texts[0] == f2.texts[0] && f1.texts[1] == f2.texts[1] && f1.texts[2] == f2.texts[2];
  }
}
