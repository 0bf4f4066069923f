/** `impl/iterm2_inline_image.py`: the iTerm2 inline-image escape. The image
    is compressed and base64-encoded by PIL and the standard library; that
    text reaches the model as an opaque `data` string. The terminal type is
    the `TERM` environment variable, passed in. */
module InlineImage {
  import opened Outcomes
  import opened Text

  const Esc := '\U{1b}'
  const Bel := '\U{07}'

  // ---------------------------------------------------------------------
  // Shape property

  /** What `_get_shape_property` can be handed besides `None`: one of the
      three shape classes or a plain tuple. */
  datatype Kind = Plain | Cells | Pixels | Ratio

  /** A shape with optional integer fields; `None` fields become `auto`. */
  datatype SizeSpec = SizeSpec(kind: Kind, height: Option<int>, width: Option<int>)

  function Unit(k: Kind): string {
    match k
    case Plain => ""
    case Cells => ""
    case Pixels => "px"
    case Ratio => "%"
  }

  /** One field as the protocol writes it. */
  function FieldText(v: Option<int>, unit: string): (s: string)
    ensures v.None? <==> s == "auto"
  {
    match v
    case None => "auto"
    case Some(n) =>
      var d := IntToDecimal(n);
      assert (d + unit)[0] == d[0];
      assert d[0] == '-' || IsDigit(d[0]);
      d + unit
  }

  /** Reads a field back. */
  function ParseField(s: string, unit: string): Option<Option<int>> {
    if s == "auto" then Some(None)
    else if |unit| <= |s| && s[|s| - |unit|..] == unit then
      var n :- ParseInt(s[..|s| - |unit|]);
      Some(Some(n))
    else None
  }

  /** Writing a field loses nothing. */
  lemma FieldRoundTrip(v: Option<int>, unit: string)
    ensures ParseField(FieldText(v, unit), unit) == Some(v)
  {
    if v.Some? {
      var d := IntToDecimal(v.value);
      var s := d + unit;
      assert s[|s| - |unit|..] == unit;
      assert s[..|s| - |unit|] == d;
      IntRoundTrip(v.value);
    }
  }

  type Property = (string, string)

  /** `_get_shape_property`: width first, then height, each in the shape's
      unit. */
  function ShapeProperty(shape: Option<SizeSpec>): (p: seq<Property>)
    ensures |p| == 2 && p[0].0 == "width" && p[1].0 == "height"
    ensures shape.None? ==> p == [("width", "auto"), ("height", "auto")]
  {
    var s := if shape.None? then SizeSpec(Plain, None, None) else shape.value;
    var unit := Unit(s.kind);
    [("width", FieldText(s.width, unit)), ("height", FieldText(s.height, unit))]
  }

  /** The width property holds the shape's width and the height property
      its height, each read back in the shape's unit. */
  lemma ShapePropertyReadsBack(shape: SizeSpec)
    ensures ParseField(ShapeProperty(Some(shape))[0].1, Unit(shape.kind)) == Some(shape.width)
    ensures ParseField(ShapeProperty(Some(shape))[1].1, Unit(shape.kind)) == Some(shape.height)
  {
    FieldRoundTrip(shape.width, Unit(shape.kind));
    FieldRoundTrip(shape.height, Unit(shape.kind));
  }

  /** The doc examples of `_get_shape_property`. */
  lemma ShapePropertyExamples()
    ensures ShapeProperty(None) == [("width", "auto"), ("height", "auto")]
    ensures ShapeProperty(Some(SizeSpec(Plain, Some(100), None))) == [("width", "auto"), ("height", "100")]
    ensures ShapeProperty(Some(SizeSpec(Cells, Some(30), Some(50)))) == [("width", "50"), ("height", "30")]
    ensures ShapeProperty(Some(SizeSpec(Pixels, Some(300), Some(500)))) == [("width", "500px"), ("height", "300px")]
    ensures ShapeProperty(Some(SizeSpec(Ratio, Some(80), Some(90)))) == [("width", "90%"), ("height", "80%")]
  {
    ExampleDecimals();
    assert "100" + "" == "100" && "30" + "" == "30" && "50" + "" == "50";
    assert "500" + "px" == "500px" && "300" + "px" == "300px";
    assert "90" + "%" == "90%" && "80" + "%" == "80%";
  }

  lemma ExampleDecimals()
    ensures NatToDecimal(100) == "100"
    ensures NatToDecimal(30) == "30" && NatToDecimal(50) == "50"
    ensures NatToDecimal(300) == "300" && NatToDecimal(500) == "500"
    ensures NatToDecimal(80) == "80" && NatToDecimal(90) == "90"
  {
    assert NatToDecimal(10) == "10";
    assert NatToDecimal(30) == "30";
    assert NatToDecimal(50) == "50";
    assert NatToDecimal(80) == "80";
    assert NatToDecimal(90) == "90";
  }

  // ---------------------------------------------------------------------
  // Framing

  function StartsWith(s: string, prefix: string): bool {
    |prefix| <= |s| && s[..|prefix|] == prefix
  }

  /** `_is_in_tmux`: an anchored match of `(screen|tmux)-`. With `TERM`
      unset, `re.match` is handed `None` and raises. */
  function IsInTmux(term: Option<string>): (r: Result<bool>)
    ensures term.None? <==> r.Err?
    ensures term.Some? ==> (r.value <==> StartsWith(term.value, "screen-") || StartsWith(term.value, "tmux-"))
  {
    match term
    case None => Err(TypeError("expected string or bytes-like object"))
    case Some(t) => Ok(StartsWith(t, "screen-") || StartsWith(t, "tmux-"))
  }

  /** The match is anchored and needs the hyphen: a bare `screen` or `tmux`,
      and a name that only contains `tmux-`, get the plain frame. */
  lemma IsInTmuxNeedsPrefix()
    ensures IsInTmux(Some("screen")) == Ok(false)
    ensures IsInTmux(Some("tmux")) == Ok(false)
    ensures IsInTmux(Some("xterm-tmux-256")) == Ok(false)
    ensures IsInTmux(Some("screen-256color")) == Ok(true)
  {
    assert "xterm-tmux-256"[..7][0] != "screen-"[0];
    assert "xterm-tmux-256"[..5][0] != "tmux-"[0];
    assert "screen-256color"[..7] == "screen-";
  }

  /** `_get_osc`: the OSC introducer, inside a tmux DCS passthrough when
      multiplexed. */
  function Osc(tmux: bool): string {
    if tmux then "\U{1b}Ptmux;\U{1b}\U{1b}]" else "\U{1b}]"
  }

  /** `_get_st`: BEL, followed by the DCS string terminator when
      multiplexed. */
  function St(tmux: bool): string {
    if tmux then "\U{07}\U{1b}\\" else "\U{07}"
  }

  /** `;key=value` for each property, concatenated. */
  function PropertiesText(props: seq<Property>): (s: string)
    decreases |props|
  {
    if |props| == 0 then "" else ";" + props[0].0 + "=" + props[0].1 + PropertiesText(props[1..])
  }

  /** The text between the introducer and the terminator. */
  function Body(data: string, props: seq<Property>): string {
    "1337;File=" + PropertiesText(props) + ":" + data
  }

  /** `_create_message` once the terminal type is known. */
  function Message(tmux: bool, data: string, props: seq<Property>): (s: string)
    ensures s == Osc(tmux) + Body(data, props) + St(tmux)
  {
    Osc(tmux) + "1337;File=" + PropertiesText(props) + ":" + data + St(tmux)
  }

  /** `_create_message`. */
  function CreateMessage(data: string, props: seq<Property>, term: Option<string>): (r: Result<string>)
    ensures r.Err? <==> term.None?
    ensures r.Ok? ==> r.value == Message(IsInTmux(term).value, data, props)
  {
    var tmux :- IsInTmux(term);
    Ok(Message(tmux, data, props))
  }

  // ---------------------------------------------------------------------
  // tmux passthrough

  /** Every ESC doubled, as a tmux passthrough requires of its payload. */
  function DoubleEsc(s: string): (r: string)
    ensures Esc !in s ==> r == s
    decreases |s|
  {
    if |s| == 0 then ""
    else (if s[0] == Esc then [Esc, Esc] else [s[0]]) + DoubleEsc(s[1..])
  }

  lemma {:induction false} DoubleEscAppend(a: string, b: string)
    ensures DoubleEsc(a + b) == DoubleEsc(a) + DoubleEsc(b)
    decreases |a|
  {
    if |a| == 0 {
      assert a + b == b;
    } else {
      assert (a + b)[1..] == a[1..] + b;
      DoubleEscAppend(a[1..], b);
    }
  }

  /** tmux's passthrough: `ESC P tmux;`, the payload with ESC doubled, then
      the string terminator `ESC \`. */
  function TmuxPassthrough(payload: string): string {
    "\U{1b}Ptmux;" + DoubleEsc(payload) + "\U{1b}\\"
  }

  /** The multiplexed message is exactly the plain one sent through tmux's
      passthrough: both carry the same body. */
  lemma TmuxWrapsPlain(data: string, props: seq<Property>)
    requires Esc !in Body(data, props)
    ensures Message(true, data, props) == TmuxPassthrough(Message(false, data, props))
  {
    TmuxWrapsBody(Body(data, props));
  }

  lemma TmuxWrapsBody(body: string)
    requires Esc !in body
    ensures Osc(true) + body + St(true) == TmuxPassthrough(Osc(false) + body + St(false))
  {
    DoubleEscFrame(body);
    assert "\U{1b}Ptmux;" + ("\U{1b}\U{1b}]" + body + "\U{07}") + "\U{1b}\\"
        == ("\U{1b}Ptmux;" + "\U{1b}\U{1b}]") + body + ("\U{07}" + "\U{1b}\\");
    TmuxLiterals();
  }

  /** Only the opener's ESC is doubled when the body has none. */
  lemma DoubleEscFrame(body: string)
    requires Esc !in body
    ensures DoubleEsc("\U{1b}]" + body + "\U{07}") == "\U{1b}\U{1b}]" + body + "\U{07}"
  {
    assert "\U{1b}]" + body + "\U{07}" == "\U{1b}]" + (body + "\U{07}");
    assert "\U{1b}\U{1b}]" + body + "\U{07}" == "\U{1b}\U{1b}]" + (body + "\U{07}");
    DoubleEscAppend("\U{1b}]", body + "\U{07}");
    DoubleEscAppend(body, "\U{07}");
    DoubleEscOpener();
    DoubleEscBel();
  }

  lemma DoubleEscOpener()
    ensures DoubleEsc("\U{1b}]") == "\U{1b}\U{1b}]"
  {
    assert "\U{1b}]"[1..] == "]";
  }

  lemma DoubleEscBel()
    ensures DoubleEsc("\U{07}") == "\U{07}"
  {
    assert Esc !in "\U{07}";
  }

  /** Joins of literal text. Each group sits in a lemma of its own: several
      such facts in one proof context cost the solver far more than each
      alone. */
  lemma TmuxLiterals()
    ensures "\U{1b}Ptmux;" + "\U{1b}\U{1b}]" == "\U{1b}Ptmux;\U{1b}\U{1b}]"
    ensures "\U{07}" + "\U{1b}\\" == "\U{07}\U{1b}\\"
  {
  }

  // ---------------------------------------------------------------------
  // Reading a message back

  /** Characters the framing uses as delimiters. */
  predicate Delimiter(c: char) {
    c == ';' || c == '=' || c == ':' || c == Esc
  }

  predicate Undelimited(s: string) {
    forall i :: 0 <= i < |s| ==> !Delimiter(s[i])
  }

  predicate WellFormed(props: seq<Property>) {
    forall i :: 0 <= i < |props| ==> Undelimited(props[i].0) && Undelimited(props[i].1)
  }

  datatype Frame = Frame(tmux: bool, properties: seq<Property>, data: string)

  /** `s` without the prefix `lit` and the suffix `tail`, if it has both. */
  function Between(s: string, lit: string, tail: string): Option<string> {
    if |lit| + |tail| <= |s| && s[..|lit|] == lit && s[|s| - |tail|..] == tail then
      Some(s[|lit|..|s| - |tail|])
    else None
  }

  /** Splits at the first `c`. */
  function SplitOnce(s: string, c: char): (r: Option<(string, string)>)
    decreases |s|
  {
    if |s| == 0 then None
    else if s[0] == c then Some(("", s[1..]))
    else
      var (a, b) :- SplitOnce(s[1..], c);
      Some(([s[0]] + a, b))
  }

  lemma {:induction false} SplitOnceAt(a: string, b: string, c: char)
    requires c !in a
    ensures SplitOnce(a + [c] + b, c) == Some((a, b))
    decreases |a|
  {
    var s := a + [c] + b;
    if |a| == 0 {
      assert s[1..] == b;
    } else {
      assert s[1..] == a[1..] + [c] + b;
      SplitOnceAt(a[1..], b, c);
      assert [a[0]] + a[1..] == a;
    }
  }

  function ParseProperty(item: string): Option<Property> {
    var parts := Split(item, '=');
    if |parts| == 2 then Some((parts[0], parts[1])) else None
  }

  function ParseItems(items: seq<string>): Option<seq<Property>>
    decreases |items|
  {
    if |items| == 0 then Some([])
    else
      var p :- ParseProperty(items[0]);
      var rest :- ParseItems(items[1..]);
      Some([p] + rest)
  }

  /** The property text: a `;` before each `key=value`. */
  function ParseProperties(text: string): Option<seq<Property>> {
    var items := Split(text, ';');
    if items[0] != "" then None else ParseItems(items[1..])
  }

  /** Reads a body back into its properties and data. */
  function ParseBody(body: string): Option<(seq<Property>, string)> {
    var rest :- Between(body, "1337;File=", "");
    var (text, data) :- SplitOnce(rest, ':');
    var props :- ParseProperties(text);
    Some((props, data))
  }

  /** Reads a message back into its multiplexing, properties and data. */
  function ParseMessage(msg: string): Option<Frame> {
    var tmux := StartsWith(msg, Osc(true));
    var body :- Between(msg, Osc(tmux), St(tmux));
    var (props, data) :- ParseBody(body);
    Some(Frame(tmux, props, data))
  }

  function Item(p: Property): string {
    p.0 + "=" + p.1
  }

  function Items(props: seq<Property>): (items: seq<string>)
    ensures |items| == |props|
    ensures forall i :: 0 <= i < |props| ==> items[i] == Item(props[i])
  {
    seq(|props|, i requires 0 <= i < |props| => Item(props[i]))
  }

  lemma UndelimitedAppend(a: string, b: string)
    requires Undelimited(a) && Undelimited(b)
    ensures Undelimited(a + b)
  {
    forall i | 0 <= i < |a + b|
      ensures !Delimiter((a + b)[i])
    {
      if i >= |a| {
        assert (a + b)[i] == b[i - |a|];
      }
    }
  }

  lemma UndelimitedNoChar(s: string, c: char)
    requires Undelimited(s) && Delimiter(c)
    ensures c !in s
  {
    forall i | 0 <= i < |s|
      ensures s[i] != c
    {
      assert !Delimiter(s[i]);
    }
  }

  lemma ParsePropertyOf(p: Property)
    requires Undelimited(p.0) && Undelimited(p.1)
    ensures ParseProperty(Item(p)) == Some(p)
  {
    UndelimitedNoChar(p.0, '=');
    UndelimitedNoChar(p.1, '=');
    SplitAtFirstSeparator(p.0, p.1, '=');
    SplitWithoutSeparator(p.1, '=');
    assert p.0 + "=" + p.1 == p.0 + ['='] + p.1;
  }

  lemma {:induction false} ParseItemsOf(props: seq<Property>)
    requires WellFormed(props)
    ensures ParseItems(Items(props)) == Some(props)
    decreases |props|
  {
    if |props| > 0 {
      ParsePropertyOf(props[0]);
      assert Items(props)[1..] == Items(props[1..]);
      ParseItemsOf(props[1..]);
      assert [props[0]] + props[1..] == props;
    }
  }

  lemma ItemUndelimitedBut(p: Property)
    requires Undelimited(p.0) && Undelimited(p.1)
    ensures ';' !in Item(p) && ':' !in Item(p) && Esc !in Item(p)
  {
    var s := Item(p);
    forall i | 0 <= i < |s|
      ensures s[i] != ';' && s[i] != ':' && s[i] != Esc
    {
      if i < |p.0| {
        assert s[i] == p.0[i];
      } else if i > |p.0| {
        assert s[i] == p.1[i - |p.0| - 1];
      }
    }
  }

  /** Splitting `x` followed by `;item` for each item gives `x` and the
      items. */
  lemma {:induction false} SplitPropertiesText(x: string, props: seq<Property>)
    requires WellFormed(props) && ';' !in x
    ensures Split(x + PropertiesText(props), ';') == [x] + Items(props)
    decreases |props|
  {
    if |props| == 0 {
      assert x + "" == x;
      SplitWithoutSeparator(x, ';');
    } else {
      var item := Item(props[0]);
      var tail := PropertiesText(props[1..]);
      ItemUndelimitedBut(props[0]);
      PropertiesTextAfter(x, props);
      SplitAtFirstSeparator(x, item + tail, ';');
      SplitPropertiesText(item, props[1..]);
      ItemsCons(props);
    }
  }

  lemma PropertiesTextAfter(x: string, props: seq<Property>)
    requires |props| > 0
    ensures x + PropertiesText(props) == x + [';'] + (Item(props[0]) + PropertiesText(props[1..]))
  {
    var tail := PropertiesText(props[1..]);
    assert PropertiesText(props) == ";" + props[0].0 + "=" + props[0].1 + tail;
    SeparatedItem(x, props[0].0, props[0].1, tail);
  }

  /** One `;key=value` item after `x`, with its separator split off. */
  lemma SeparatedItem(x: string, k: string, v: string, t: string)
    ensures x + (";" + k + "=" + v + t) == x + [';'] + (k + "=" + v + t)
  {
  }

  lemma ItemsCons(props: seq<Property>)
    requires |props| > 0
    ensures Items(props) == [Item(props[0])] + Items(props[1..])
  {
    assert Items(props)[1..] == Items(props[1..]);
  }

  lemma PropertiesTextClean(props: seq<Property>)
    requires WellFormed(props)
    ensures ':' !in PropertiesText(props) && Esc !in PropertiesText(props)
    decreases |props|
  {
    if |props| > 0 {
      ItemUndelimitedBut(props[0]);
      PropertiesTextClean(props[1..]);
      assert PropertiesText(props) == ";" + Item(props[0]) + PropertiesText(props[1..]);
    }
  }

  lemma BetweenOf(lit: string, mid: string, tail: string)
    ensures Between(lit + mid + tail, lit, tail) == Some(mid)
  {
    var s := lit + mid + tail;
    assert s[..|lit|] == lit;
    assert s[|s| - |tail|..] == tail;
    assert s[|lit|..|s| - |tail|] == mid;
  }

  lemma ParseBodyOf(data: string, props: seq<Property>)
    requires WellFormed(props)
    ensures ParseBody(Body(data, props)) == Some((props, data))
  {
    var text := PropertiesText(props);
    var rest := text + ":" + data;
    assert Body(data, props) == "1337;File=" + rest + "";
    BetweenOf("1337;File=", rest, "");
    PropertiesTextClean(props);
    assert rest == text + [':'] + data;
    SplitOnceAt(text, data, ':');
    SplitPropertiesText("", props);
    assert "" + text == text;
    ParseItemsOf(props);
  }

  /** Only the multiplexed introducer starts with `ESC P`. */
  lemma TmuxDetected(tmux: bool, body: string)
    ensures StartsWith(Osc(tmux) + body + St(tmux), Osc(true)) == tmux
  {
    var msg := Osc(tmux) + body + St(tmux);
    if !tmux {
      assert msg[1] == ']';
    } else {
      assert msg[..|Osc(true)|] == Osc(true);
    }
  }

  /** Reading a message back gives its multiplexing, properties and data:
      `Message` loses nothing. */
  lemma ParseMessageOf(tmux: bool, data: string, props: seq<Property>)
    requires WellFormed(props)
    ensures ParseMessage(Message(tmux, data, props)) == Some(Frame(tmux, props, data))
  {
    var body := Body(data, props);
    TmuxDetected(tmux, body);
    BetweenOf(Osc(tmux), body, St(tmux));
    ParseBodyOf(data, props);
  }

  // ---------------------------------------------------------------------
  // draw

  /** The property list `draw` assembles, in its fixed order. */
  function Properties(shape: Option<SizeSpec>, dataLength: nat, preserveAspectRatio: bool): (p: seq<Property>)
    ensures |p| == 5
    ensures p[..2] == ShapeProperty(shape)
    ensures p[2] == ("size", NatToDecimal(dataLength))
    ensures p[3] == ("preserveAspectRatio", if preserveAspectRatio then "1" else "0")
    ensures p[4] == ("inline", "1")
  {
    ShapeProperty(shape) + [("size", NatToDecimal(dataLength)),
                            ("preserveAspectRatio", if preserveAspectRatio then "1" else "0"),
                            ("inline", "1")]
  }

  lemma DecimalUndelimited(i: int)
    ensures Undelimited(IntToDecimal(i))
  {
    var s := IntToDecimal(i);
    forall k | 0 <= k < |s|
      ensures !Delimiter(s[k])
    {
      if i < 0 && k > 0 {
        assert s[k] == s[1..][k - 1];
      }
    }
  }

  lemma FieldUndelimited(v: Option<int>, k: Kind)
    ensures Undelimited(FieldText(v, Unit(k)))
  {
    if v.Some? {
      DecimalUndelimited(v.value);
      UndelimitedAppend(IntToDecimal(v.value), Unit(k));
    }
  }

  lemma PropertiesWellFormed(shape: Option<SizeSpec>, dataLength: nat, preserveAspectRatio: bool)
    ensures WellFormed(Properties(shape, dataLength, preserveAspectRatio))
  {
    var s := if shape.None? then SizeSpec(Plain, None, None) else shape.value;
    FieldUndelimited(s.width, s.kind);
    FieldUndelimited(s.height, s.kind);
    DecimalUndelimited(dataLength);
    NamesUndelimited();
    var p := Properties(shape, dataLength, preserveAspectRatio);
    var q := ShapeProperty(shape);
    assert q[0] == ("width", FieldText(s.width, Unit(s.kind)));
    assert q[1] == ("height", FieldText(s.height, Unit(s.kind)));
    assert p[0] == q[0] && p[1] == q[1];
    WellFormedFive(p);
  }

  lemma NamesUndelimited()
    ensures Undelimited("width") && Undelimited("height") && Undelimited("size")
    ensures Undelimited("preserveAspectRatio") && Undelimited("inline")
    ensures Undelimited("0") && Undelimited("1")
  {
  }

  lemma WellFormedFive(p: seq<Property>)
    requires |p| == 5
    requires Undelimited(p[0].0) && Undelimited(p[0].1) && Undelimited(p[1].0) && Undelimited(p[1].1)
    requires Undelimited(p[2].0) && Undelimited(p[2].1) && Undelimited(p[3].0) && Undelimited(p[3].1)
    requires Undelimited(p[4].0) && Undelimited(p[4].1)
    ensures WellFormed(p)
  {
  }

  /** `Iterm2InlineImageDrawer.draw`, given the encoded image. */
  function Draw(data: string, shape: Option<SizeSpec>, preserveAspectRatio: bool, term: Option<string>): (r: Result<string>)
    ensures r.Err? <==> term.None?
  {
    CreateMessage(data, Properties(shape, |data|, preserveAspectRatio), term)
  }

  /** The drawn message reads back as the shape's fields, the data's
      length, the aspect flag, `inline=1` and the data itself, framed for
      tmux exactly when `TERM` starts with `screen-` or `tmux-`. */
  lemma DrawReadsBack(data: string, shape: Option<SizeSpec>, preserveAspectRatio: bool, term: string)
    ensures Draw(data, shape, preserveAspectRatio, Some(term)).Ok?
    ensures ParseMessage(Draw(data, shape, preserveAspectRatio, Some(term)).value)
         == Some(Frame(StartsWith(term, "screen-") || StartsWith(term, "tmux-"),
                       Properties(shape, |data|, preserveAspectRatio), data))
  {
    PropertiesWellFormed(shape, |data|, preserveAspectRatio);
    ParseMessageOf(IsInTmux(Some(term)).value, data, Properties(shape, |data|, preserveAspectRatio));
  }

  // ---------------------------------------------------------------------
  // The messages a 1 by 1 black image produces

  const Png1x1 := "iVBORw0KGgoAAAANSUhEUgAAAAEAAAABCAAAAAA6fptVAAAACklEQVR4nGNgAAAAAgABSK+kcQAAAABJRU5ErkJggg=="

  const Jpeg1x1 := "/9j/4AAQSkZJRgABAQAAAQABAAD/2wBDAAgGBgcGBQgHBwcJCQgKDBQNDAsLDBkSEw8UHRofHh0aHBwgJC4nICIsIxwcKDcpLDAxNDQ0Hyc5PTgyPC4zNDL/wAALCAABAAEBAREA/8QAHwAAAQUBAQEBAQEAAAAAAAAAAAECAwQFBgcICQoL/8QAtRAAAgEDAwIEAwUFBAQAAAF9AQIDAAQRBRIhMUEGE1FhByJxFDKBkaEII0KxwRVS0fAkM2JyggkKFhcYGRolJicoKSo0NTY3ODk6Q0RFRkdISUpTVFVWV1hZWmNkZWZnaGlqc3R1dnd4eXqDhIWGh4iJipKTlJWWl5iZmqKjpKWmp6ipqrKztLW2t7i5usLDxMXGx8jJytLT1NXW19jZ2uHi4+Tl5ufo6erx8vP09fb3+Pn6/9oACAEBAAA/APn+v//Z"

  lemma PropertiesTextCons(p: Property, rest: seq<Property>)
    ensures PropertiesText([p] + rest) == ";" + p.0 + "=" + p.1 + PropertiesText(rest)
  {
    assert ([p] + rest)[1..] == rest;
  }

  lemma DefaultProperties(n: nat, digits: string)
    requires NatToDecimal(n) == digits
    ensures Properties(None, n, true)
         == [("width", "auto")] + ([("height", "auto")] + ([("size", digits)]
            + ([("preserveAspectRatio", "1")] + ([("inline", "1")] + []))))
  {
  }

  lemma DefaultText(digits: string)
    ensures ";" + "width" + "=" + "auto" + (";" + "height" + "=" + "auto" + (";" + "size" + "=" + digits
            + (";" + "preserveAspectRatio" + "=" + "1" + (";" + "inline" + "=" + "1" + ""))))
         == ";width=auto;height=auto;size=" + digits + ";preserveAspectRatio=1;inline=1"
  {
    ItemLiterals();
    TailLiterals();
    var a, b, c, e := ";width=auto", ";height=auto", ";size=", ";preserveAspectRatio=1;inline=1";
    assert a + (b + (c + digits + e)) == a + b + c + digits + e;
  }

  /** The literal items of the default properties, joined (kept apart from
      the regrouping for the same reason as `TmuxLiterals`). */
  lemma ItemLiterals()
    ensures ";" + "width" + "=" + "auto" == ";width=auto"
    ensures ";" + "height" + "=" + "auto" == ";height=auto"
    ensures ";" + "size" + "=" == ";size="
    ensures ";" + "preserveAspectRatio" + "=" + "1" == ";preserveAspectRatio=1"
    ensures ";" + "inline" + "=" + "1" + "" == ";inline=1"
  {
  }

  lemma TailLiterals()
    ensures ";preserveAspectRatio=1" + ";inline=1" == ";preserveAspectRatio=1;inline=1"
    ensures ";width=auto" + ";height=auto" + ";size=" == ";width=auto;height=auto;size="
  {
  }

  lemma DefaultPropertiesText(n: nat, digits: string)
    requires NatToDecimal(n) == digits
    ensures PropertiesText(Properties(None, n, true))
         == ";width=auto;height=auto;size=" + digits + ";preserveAspectRatio=1;inline=1"
  {
    DefaultProperties(n, digits);
    var e: seq<Property> := [];
    var p4 := [("inline", "1")] + e;
    var p3 := [("preserveAspectRatio", "1")] + p4;
    var p2 := [("size", digits)] + p3;
    var p1 := [("height", "auto")] + p2;
    PropertiesTextCons(("inline", "1"), e);
    PropertiesTextCons(("preserveAspectRatio", "1"), p4);
    PropertiesTextCons(("size", digits), p3);
    PropertiesTextCons(("height", "auto"), p2);
    PropertiesTextCons(("width", "auto"), p1);
    DefaultText(digits);
  }

  /** With no shape and aspect preservation on, the message carries the
      default properties in order around the data. */
  lemma DrawDefault(data: string, term: string, digits: string)
    requires NatToDecimal(|data|) == digits
    ensures var tmux := IsInTmux(Some(term)).value;
      Draw(data, None, true, Some(term))
        == Ok(Osc(tmux) + "1337;File=" + (";width=auto;height=auto;size=" + digits + ";preserveAspectRatio=1;inline=1")
              + ":" + data + St(tmux))
  {
    DefaultPropertiesText(|data|, digits);
  }

  lemma Reassociate(prefix: string, text: string, data: string, st: string, body: string)
    requires "1337;File=" + text + ":" == body
    ensures prefix + "1337;File=" + text + ":" + data + st == prefix + body + data + st
  {
  }

  /** The default properties for a payload whose length is written
      `digits`, with the fixed text on either side joined up. */
  lemma DefaultBodyOf(digits: string)
    ensures "1337;File=" + (";width=auto;height=auto;size=" + digits + ";preserveAspectRatio=1;inline=1") + ":"
         == "1337;File=;width=auto;height=auto;size=" + digits + ";preserveAspectRatio=1;inline=1:"
  {
    var head, tail := "1337;File=", ";preserveAspectRatio=1;inline=1";
    HeadLiterals();
    ColonLiterals();
    assert head + ((";width=auto;height=auto;size=" + digits) + tail) + ":"
        == head + (";width=auto;height=auto;size=" + digits) + tail + ":";
  }

  /** The literal text on either side of the size digits, joined. */
  lemma HeadLiterals()
    ensures "1337;File=" + ";width=auto;height=auto;size=" == "1337;File=;width=auto;height=auto;size="
  {
  }

  lemma ColonLiterals()
    ensures ";preserveAspectRatio=1;inline=1" + ":" == ";preserveAspectRatio=1;inline=1:"
  {
  }

  /** The default properties for a 92-byte payload, written out. */
  lemma DefaultBody92()
    ensures "1337;File=" + (";width=auto;height=auto;size=" + "92" + ";preserveAspectRatio=1;inline=1") + ":"
         == "1337;File=;width=auto;height=auto;size=92;preserveAspectRatio=1;inline=1:"
  {
    DefaultBodyOf("92");
  }

  /** The default properties for a 444-byte payload, written out. */
  lemma DefaultBody444()
    ensures "1337;File=" + (";width=auto;height=auto;size=" + "444" + ";preserveAspectRatio=1;inline=1") + ":"
         == "1337;File=;width=auto;height=auto;size=444;preserveAspectRatio=1;inline=1:"
  {
    DefaultBodyOf("444");
  }

  lemma PngLength()
    ensures |Png1x1| == 92
  {
  }

  lemma JpegLength()
    ensures |Jpeg1x1| == 444
  {
  }

  lemma Decimal92()
    ensures NatToDecimal(92) == "92"
  {
    assert NatToDecimal(9) == "9";
  }

  lemma Decimal444()
    ensures NatToDecimal(444) == "444"
  {
    assert NatToDecimal(44) == "44" by {
      assert NatToDecimal(4) == "4";
    }
  }

  /** The golden messages for the one-pixel PNG: multiplexed for `tmux-*`
      and `screen-*` terminals, plain otherwise. */
  lemma PngMessages()
    ensures Draw(Png1x1, None, true, Some("tmux-256"))
         == Ok("\U{1b}Ptmux;\U{1b}\U{1b}]"
               + "1337;File=;width=auto;height=auto;size=92;preserveAspectRatio=1;inline=1:"
               + Png1x1 + "\U{07}\U{1b}\\")
    ensures Draw(Png1x1, None, true, Some("screen-256"))
         == Ok("\U{1b}Ptmux;\U{1b}\U{1b}]"
               + "1337;File=;width=auto;height=auto;size=92;preserveAspectRatio=1;inline=1:"
               + Png1x1 + "\U{07}\U{1b}\\")
    ensures Draw(Png1x1, None, true, Some(""))
         == Ok("\U{1b}]"
               + "1337;File=;width=auto;height=auto;size=92;preserveAspectRatio=1;inline=1:"
               + Png1x1 + "\U{07}")
  {
    PngLength();
    Decimal92();
    assert StartsWith("tmux-256", "tmux-");
    assert StartsWith("screen-256", "screen-");
    var text := ";width=auto;height=auto;size=" + "92" + ";preserveAspectRatio=1;inline=1";
    var body := "1337;File=;width=auto;height=auto;size=92;preserveAspectRatio=1;inline=1:";
    DrawDefault(Png1x1, "tmux-256", "92");
    DrawDefault(Png1x1, "screen-256", "92");
    DrawDefault(Png1x1, "", "92");
    DefaultBody92();
    Reassociate(Osc(true), text, Png1x1, St(true), body);
    Reassociate(Osc(false), text, Png1x1, St(false), body);
  }

  /** Any 444-character payload on a plain terminal. */
  lemma PlainMessage444(data: string)
    requires |data| == 444
    ensures Draw(data, None, true, Some(""))
         == Ok("\U{1b}]"
               + "1337;File=;width=auto;height=auto;size=444;preserveAspectRatio=1;inline=1:"
               + data + "\U{07}")
  {
    Decimal444();
    DrawDefault(data, "", "444");
    DefaultBody444();
    Reassociate(Osc(false), ";width=auto;height=auto;size=" + "444" + ";preserveAspectRatio=1;inline=1", data, St(false),
      "1337;File=;width=auto;height=auto;size=444;preserveAspectRatio=1;inline=1:");
  }

  /** The golden message for the one-pixel JPEG on a plain terminal. */
  lemma JpegMessage()
    ensures Draw(Jpeg1x1, None, true, Some(""))
         == Ok("\U{1b}]"
               + "1337;File=;width=auto;height=auto;size=444;preserveAspectRatio=1;inline=1:"
               + Jpeg1x1 + "\U{07}")
  {
    JpegLength();
    PlainMessage444(Jpeg1x1);
  }

}
