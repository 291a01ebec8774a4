/** The console byte stream of src/cpu/isr.c in tiling mode: colour and icon control sequences
    picked out of the text, one byte at a time, across writes. */
module Console {
  import opened Bytes

  const COLOUR: byte := 0xFF
  const ICON: byte := 0xFE

  datatype Rgb = Rgb(r: byte, g: byte, b: byte)

  /** What reaches the terminal: a character in the current colour, or a line icon's key. */
  datatype Event = Char(ch: byte, colour: Rgb) | IconKey(key: seq<byte>)

  // ----- the grammar of the whole stream -----

  /** Events of a stream, the colour after it, and the bytes of an unfinished sequence at its end. */
  datatype Parsed = Parsed(events: seq<Event>, colour: Rgb, rest: seq<byte>)

  function Then(events: seq<Event>, p: Parsed): Parsed {
    Parsed(events + p.events, p.colour, p.rest)
  }

  /** Sixteen bytes name an icon, NUL-terminated in the sixteenth; an empty name registers nothing. */
  function IconEvents(key: seq<byte>): seq<Event>
    requires |key| == 16
  {
    if key[0] == 0 then [] else [IconKey(key[..15] + [0])]
  }

  function Parse(s: seq<byte>, colour: Rgb): Parsed
    decreases |s|
  {
    if s == [] then Parsed([], colour, [])
    else if s[0] == COLOUR then
      if |s| < 4 then Parsed([], colour, s) else Parse(s[4..], Rgb(s[1], s[2], s[3]))
    else if s[0] == ICON then
      if |s| < 17 then Parsed([], colour, s) else Then(IconEvents(s[1..17]), Parse(s[17..], colour))
    else Then([Char(s[0], colour)], Parse(s[1..], colour))
  }

  lemma ThenThen(a: seq<Event>, b: seq<Event>, p: Parsed)
    ensures Then(a, Then(b, p)) == Then(a + b, p)
  {
    assert a + (b + p.events) == (a + b) + p.events;
  }

  lemma ThenNothing(p: Parsed)
    ensures Then([], p) == p
  {
  }

  /** However a stream is split, parsing goes on where it stopped. */
  lemma {:induction false} SplitAnywhere(s: seq<byte>, t: seq<byte>, colour: Rgb)
    ensures var p := Parse(s, colour);
      Parse(s + t, colour) == Then(p.events, Parse(p.rest + t, p.colour))
    decreases |s|
  {
    if s == [] {
      assert s + t == t && [] + t == t;
      ThenNothing(Parse(t, colour));
    } else if Unfinished(s) {
      ThenNothing(Parse(s + t, colour));
    } else {
      var (n, ev, c) := FirstToken(s, colour);
      SplitAnywhere(s[n..], t, c);
      TokenOff(s, colour);
      TokenOff(s + t, colour);
      SameToken(s, t, colour);
      var q := Parse(s[n..], c);
      ThenThen(ev, q.events, Parse(q.rest + t, q.colour));
    }
  }

  /** A control sequence whose bytes have not all come. */
  predicate Unfinished(s: seq<byte>) {
    s != [] && ((s[0] == COLOUR && |s| < 4) || (s[0] == ICON && |s| < 17))
  }

  /** The first whole token: its length, its events and the colour after it. */
  function FirstToken(s: seq<byte>, colour: Rgb): (r: (nat, seq<Event>, Rgb))
    requires s != [] && !Unfinished(s)
    ensures 0 < r.0 <= |s|
  {
    if s[0] == COLOUR then (4, [], Rgb(s[1], s[2], s[3]))
    else if s[0] == ICON then (17, IconEvents(s[1..17]), colour)
    else (1, [Char(s[0], colour)], colour)
  }

  lemma {:induction false} SameToken(s: seq<byte>, t: seq<byte>, colour: Rgb)
    requires s != [] && !Unfinished(s)
    ensures !Unfinished(s + t) && FirstToken(s + t, colour) == FirstToken(s, colour)
    ensures var n := FirstToken(s, colour).0; (s + t)[n..] == s[n..] + t
  {
    if s[0] == ICON {
      assert (s + t)[1..17] == s[1..17];
    }
  }

  lemma {:induction false} TokenOff(s: seq<byte>, colour: Rgb)
    requires s != [] && !Unfinished(s)
    ensures var (n, ev, c) := FirstToken(s, colour); Parse(s, colour) == Then(ev, Parse(s[n..], c))
  {
    var (n, ev, c) := FirstToken(s, colour);
    ThenNothing(Parse(s[n..], c));
  }

  // ----- what a program writes -----

  /** A character, a colour change, or a line icon named by sixteen bytes. */
  datatype Item = Text(ch: byte) | Colour(r: byte, g: byte, b: byte) | Icon(key: seq<byte>)

  predicate Writable(items: seq<Item>) {
    forall k :: 0 <= k < |items| ==>
      match items[k] case Text(ch) => ch < 254 case Colour(_, _, _) => true case Icon(key) => |key| == 16
  }

  /** The bytes of the items: 255 and red, green, blue; 254 and the icon's name. */
  function Sent(items: seq<Item>): seq<byte> {
    if items == [] then []
    else
      (match items[0]
       case Text(ch) => [ch]
       case Colour(r, g, b) => [255, r, g, b]
       case Icon(key) => [254] + key) + Sent(items[1..])
  }

  /** What they are to do: a character shows in the colour set last; an icon whose name is not empty is
      registered under the name's first fifteen bytes and a NUL. */
  function Meant(items: seq<Item>, red: byte, green: byte, blue: byte): seq<Event> {
    if items == [] then []
    else
      match items[0]
      case Text(ch) => [Char(ch, Rgb(red, green, blue))] + Meant(items[1..], red, green, blue)
      case Colour(r, g, b) => Meant(items[1..], r, g, b)
      case Icon(key) =>
        (if |key| == 16 && key[0] != 0 then [IconKey(key[..15] + [0])] else []) + Meant(items[1..], red, green, blue)
  }

  /** A program's items are understood as they are meant, and leave nothing unfinished. */
  lemma {:induction false} SentIsMeant(items: seq<Item>, red: byte, green: byte, blue: byte)
    requires Writable(items)
    ensures var p := Parse(Sent(items), Rgb(red, green, blue));
      p.events == Meant(items, red, green, blue) && p.rest == []
    decreases |items|
  {
    if items != [] {
      var rest := Sent(items[1..]);
      match items[0]
      case Text(ch) =>
        SentIsMeant(items[1..], red, green, blue);
        TextFirst(ch, rest, Rgb(red, green, blue));
      case Colour(r, g, b) =>
        SentIsMeant(items[1..], r, g, b);
        ColourFirst(r, g, b, rest, Rgb(red, green, blue));
      case Icon(key) =>
        SentIsMeant(items[1..], red, green, blue);
        IconFirst(key, rest, Rgb(red, green, blue));
    }
  }

  lemma {:induction false} TextFirst(ch: byte, rest: seq<byte>, colour: Rgb)
    requires ch < 254
    ensures Parse([ch] + rest, colour) == Then([Char(ch, colour)], Parse(rest, colour))
  {
    assert ([ch] + rest)[1..] == rest;
  }

  lemma {:induction false} ColourFirst(r: byte, g: byte, b: byte, rest: seq<byte>, colour: Rgb)
    ensures Parse([255, r, g, b] + rest, colour) == Parse(rest, Rgb(r, g, b))
  {
    assert ([255, r, g, b] + rest)[4..] == rest;
  }

  lemma {:induction false} IconFirst(key: seq<byte>, rest: seq<byte>, colour: Rgb)
    requires |key| == 16
    ensures Parse([254] + key + rest, colour) ==
      Then(if key[0] == 0 then [] else [IconKey(key[..15] + [0])], Parse(rest, colour))
  {
    var s := [254] + key + rest;
    assert s[1..17] == key && s[17..] == rest;
  }

  // ----- the state machine -----

  class Terminal {
    var colour: Rgb
    var colourState: nat
    var iconState: nat
    const colourBytes: array<byte>
    const iconBytes: array<byte>
    var screen: seq<Event>

    ghost predicate Valid()
      reads this
    {
      && colourBytes.Length == 3 && iconBytes.Length == 16 && colourBytes != iconBytes
      && colourState <= 3 && iconState <= 16 && (colourState == 0 || iconState == 0)
    }

    /** The unfinished sequence the state stands for. */
    ghost function Pending(): seq<byte>
      requires Valid()
      reads this, colourBytes, iconBytes
    {
      if colourState > 0 then [COLOUR] + colourBytes[..colourState - 1]
      else if iconState > 0 then [ICON] + iconBytes[..iconState - 1]
      else []
    }

    /** Everything written so far has become `p`, after the screen `before`. */
    ghost predicate Shows(before: seq<Event>, p: Parsed)
      reads this, colourBytes, iconBytes
    {
      Valid() && screen == before + p.events && colour == p.colour && Pending() == p.rest
    }

    constructor ()
      ensures Shows([], Parsed([], Rgb(255, 255, 255), []))
      ensures fresh(colourBytes) && fresh(iconBytes)
    {
      colour, colourState, iconState, screen := Rgb(255, 255, 255), 0, 0, [];
      colourBytes := new byte[3](_ => 0);
      iconBytes := new byte[16](_ => 0);
    }

    /** One turn of the loop of `syscall_console_write`. */
    method Byte(ch: byte)
      requires Valid()
      modifies this, colourBytes, iconBytes
      ensures Shows(old(screen), Parse(old(Pending()) + [ch], old(colour)))
    {
      if colourState != 0 {
        colourBytes[colourState - 1] := ch;
        colourState := colourState + 1;
        if colourState == 4 {
          colour := Rgb(colourBytes[0], colourBytes[1], colourBytes[2]);
          colourState := 0;
        }
        return;
      }
      if iconState != 0 {
        iconBytes[iconState - 1] := ch;
        iconState := iconState + 1;
        if iconState == 17 {
          IconDone(iconBytes[..], old(colour), old(Pending()) + [ch]);
          if iconBytes[0] != 0 {
            screen := screen + [IconKey(iconBytes[..15] + [0])];
          }
          iconState := 0;
        }
        return;
      }
      if ch == COLOUR { colourState := 1; return; }
      if ch == ICON { iconState := 1; return; }
      screen := screen + [Char(ch, colour)];
    }

    /** `syscall_console_write`. */
    method Write(buf: seq<byte>)
      requires Valid()
      modifies this, colourBytes, iconBytes
      ensures Shows(old(screen), Parse(old(Pending()) + buf, old(colour)))
    {
      ghost var start, hue, before := Pending(), colour, screen;
      assert start + buf[..0] == start;
      Unparsed(start, hue);
      for i := 0 to |buf|
        invariant Shows(before, Parse(start + buf[..i], hue))
      {
        assert start + buf[..i + 1] == (start + buf[..i]) + [buf[i]];
        ByteMore(buf[i], before, start + buf[..i], hue);
      }
      assert buf[..|buf|] == buf;
    }

    /** One more byte behind the stream `s`. */
    method ByteMore(ch: byte, ghost before: seq<Event>, ghost s: seq<byte>, ghost hue: Rgb)
      requires Shows(before, Parse(s, hue))
      modifies this, colourBytes, iconBytes
      ensures Shows(before, Parse(s + [ch], hue))
    {
      SplitAnywhere(s, [ch], hue);
      Byte(ch);
    }

    /** A write behind the stream `s`. */
    method WriteMore(buf: seq<byte>, ghost before: seq<Event>, ghost s: seq<byte>, ghost hue: Rgb)
      requires Shows(before, Parse(s, hue))
      modifies this, colourBytes, iconBytes
      ensures Shows(before, Parse(s + buf, hue))
    {
      SplitAnywhere(s, buf, hue);
      Write(buf);
    }

    /** The write system call: the kernel copies in at most 256 bytes at a time. */
    method WriteChunked(buf: seq<byte>)
      requires Valid()
      modifies this, colourBytes, iconBytes
      ensures Shows(old(screen), Parse(old(Pending()) + buf, old(colour)))
    {
      ghost var start, hue, before := Pending(), colour, screen;
      assert start + buf[..0] == start;
      Unparsed(start, hue);
      var pos := 0;
      while pos < |buf|
        invariant pos <= |buf| && Shows(before, Parse(start + buf[..pos], hue))
      {
        var chunk := Min(|buf| - pos, 256);
        Prefix(start, buf, pos, pos + chunk);
        WriteMore(buf[pos..pos + chunk], before, start + buf[..pos], hue);
        pos := pos + chunk;
      }
      assert buf[..|buf|] == buf;
    }

    /** The pending bytes alone show nothing. */
    lemma Unparsed(pending: seq<byte>, hue: Rgb)
      requires Valid() && pending == Pending()
      ensures Parse(pending, hue) == Parsed([], hue, pending)
    {
    }
  }

  lemma Prefix(start: seq<byte>, buf: seq<byte>, i: nat, j: nat)
    requires i <= j <= |buf|
    ensures start + buf[..j] == (start + buf[..i]) + buf[i..j]
  {
  }

  lemma IconDone(key: seq<byte>, colour: Rgb, s: seq<byte>)
    requires |key| == 16 && s == [ICON] + key
    ensures Parse(s, colour) == Parsed(if key[0] == 0 then [] else [IconKey(key[..15] + [0])], colour, [])
  {
    assert s[1..17] == key && s[17..] == [];
  }

  // ----- any splitting into writes -----

  function Joined(writes: seq<seq<byte>>): seq<byte> {
    if writes == [] then [] else writes[0] + Joined(writes[1..])
  }

  /** The writes one after the other, each continuing from where the last one stopped. */
  function ParseWrites(p: Parsed, writes: seq<seq<byte>>): Parsed
    decreases |writes|
  {
    if writes == [] then p
    else ParseWrites(Then(p.events, Parse(p.rest + writes[0], p.colour)), writes[1..])
  }

  /** A program's output looks the same however it cuts it into writes. */
  lemma {:induction false} WritesDoNotMatter(s: seq<byte>, writes: seq<seq<byte>>, colour: Rgb)
    ensures ParseWrites(Parse(s, colour), writes) == Parse(s + Joined(writes), colour)
    decreases |writes|
  {
    if writes == [] {
      assert s + [] == s;
    } else {
      SplitAnywhere(s, writes[0], colour);
      WritesDoNotMatter(s + writes[0], writes[1..], colour);
      assert s + (writes[0] + Joined(writes[1..])) == (s + writes[0]) + Joined(writes[1..]);
    }
  }
}
