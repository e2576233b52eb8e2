/** The ASS (v4.00+) writer: serialises a document into the lines of a
    `.ass` file. Printing to a stream becomes returning the printed lines. */
module AssWriter {
  import opened Wrappers
  import opened Strings
  import opened Ass

  const NOTICE_LINES := ["Script generated by bubblesub", "https://github.com/rr-/bubblesub"]

  /** The two notice lines, newline-separated. */
  const NOTICE := NOTICE_LINES[0] + "\n" + NOTICE_LINES[1]

  const STYLES_FORMAT :=
    "Format: Name, Fontname, Fontsize, PrimaryColour, SecondaryColour, OutlineColour, BackColour, "
    + "Bold, Italic, Underline, StrikeOut, ScaleX, ScaleY, Spacing, Angle, BorderStyle, Outline, "
    + "Shadow, Alignment, MarginL, MarginR, MarginV, Encoding"

  const EVENTS_FORMAT := "Format: Layer, Start, End, Style, Name, MarginL, MarginR, MarginV, Effect, Text"

  /** What `ms_to_times` returns: hours, minutes, seconds, milliseconds. */
  datatype Times = Times(hours: int, minutes: int, seconds: int, milliseconds: int)

  /** Helpers of other modules that the writer calls: `ms_to_times`,
      `escape_ass_tag` and Python's formatting of a float (`f"{x:}"`). */
  datatype Helpers = Helpers(msToTimes: int -> Times, escapeAssTag: string -> string, formatFloat: real -> string)

  /** Writing an event whose start or end is `None` fails: the absent time
      reaches `ms_to_times`. */
  datatype WriteError = MissingTime(eventIndex: nat)

  // ----- colours -----

  /** `&HAABBGGRR`: alpha, blue, green, red as upper-case hex pairs. */
  function SerializeColor(c: Color): (s: string)
    ensures |s| == 10 && s[..2] == "&H"
    ensures forall k :: 2 <= k < 10 ==> IsUpperHex(s[k])
  {
    "&H" + Hex2(c.alpha) + Hex2(c.blue) + Hex2(c.green) + Hex2(c.red)
  }

  function HexPair(a: char, b: char): (v: Byte)
    requires IsUpperHex(a) && IsUpperHex(b)
  {
    16 * HexDigitValue(a) + HexDigitValue(b)
  }

  /** Reads `&HAABBGGRR` back; anything else is not a colour. */
  function ParseColor(s: string): Option<Color> {
    if |s| == 10 && s[..2] == "&H" && forall k :: 2 <= k < 10 ==> IsUpperHex(s[k]) then
      Some(Color(red := HexPair(s[8], s[9]), green := HexPair(s[6], s[7]),
                 blue := HexPair(s[4], s[5]), alpha := HexPair(s[2], s[3])))
    else
      None
  }

  /** A serialised colour reads back as the same colour, so no channel is
      lost or swapped. */
  lemma ColorRoundTrip(c: Color)
    ensures ParseColor(SerializeColor(c)) == Some(c)
  {
    var s := SerializeColor(c);
    var a, b, g, r := Hex2(c.alpha), Hex2(c.blue), Hex2(c.green), Hex2(c.red);
    ConcatPairs("&H", a, b, g, r);
    Hex2RoundTrip(c.alpha);
    Hex2RoundTrip(c.blue);
    Hex2RoundTrip(c.green);
    Hex2RoundTrip(c.red);
  }

  /** Where the characters of five two-character strings land in their concatenation. */
  lemma ConcatPairs(p: string, a: string, b: string, g: string, r: string)
    requires |p| == 2 && |a| == 2 && |b| == 2 && |g| == 2 && |r| == 2
    ensures var s := p + a + b + g + r;
      && |s| == 10 && s[..2] == p
      && s[2] == a[0] && s[3] == a[1] && s[4] == b[0] && s[5] == b[1]
      && s[6] == g[0] && s[7] == g[1] && s[8] == r[0] && s[9] == r[1]
  {
  }

  // ----- timestamps -----

  /** `H:MM:SS.CC` from the parts of a time. */
  function Timestamp(t: Times): string {
    FormatInt(t.hours, 1) + ":" + FormatInt(t.minutes, 2) + ":"
    + (FormatInt(t.seconds, 2) + "." + FormatInt(t.milliseconds / 10, 2))
  }

  /** `_ms_to_timestamp`. */
  function MsToTimestamp(ms: int, h: Helpers): string {
    Timestamp(h.msToTimes(ms))
  }

  /** Reads `H:MM:SS.CC` back into hours, minutes, seconds and milliseconds
      (the centiseconds times ten); anything else is not a timestamp. */
  function ParseTimestamp(s: string): Option<Times> {
    var p := Split(s, ':');
    if |p| != 3 then None
    else
      var q := Split(p[2], '.');
      if |q| == 2 && |p[1]| == 2 && |q[0]| == 2 && |q[1]| == 2
         && AllDigits(p[0]) && AllDigits(p[1]) && AllDigits(q[0]) && AllDigits(q[1]) then
        Some(Times(DecimalValue(p[0]), DecimalValue(p[1]), DecimalValue(q[0]), 10 * DecimalValue(q[1])))
      else
        None
  }

  /** For a well-formed time the timestamp reads back as the same hours,
      minutes and seconds, with the milliseconds truncated to centiseconds:
      minutes, seconds and centiseconds are each written as two digits. */
  lemma TimestampRoundTrip(t: Times)
    requires t.hours >= 0 && 0 <= t.minutes < 60 && 0 <= t.seconds < 60 && 0 <= t.milliseconds < 1000
    ensures ParseTimestamp(Timestamp(t)) == Some(Times(t.hours, t.minutes, t.seconds, 10 * (t.milliseconds / 10)))
  {
    var hh, mm, ss, cc := FormatInt(t.hours, 1), FormatInt(t.minutes, 2), FormatInt(t.seconds, 2), FormatInt(t.milliseconds / 10, 2);
    assert AllDigits(hh) && DecimalValue(hh) == t.hours by {
      assert hh == Digits(t.hours);
      DigitsRoundTrip(t.hours);
    }
    assert |mm| == 2 && AllDigits(mm) && DecimalValue(mm) == t.minutes by { TwoDigits(t.minutes); }
    assert |ss| == 2 && AllDigits(ss) && DecimalValue(ss) == t.seconds by { TwoDigits(t.seconds); }
    assert |cc| == 2 && AllDigits(cc) && DecimalValue(cc) == t.milliseconds / 10 by { TwoDigits(t.milliseconds / 10); }
    ParseParts(hh, mm, ss, cc);
  }

  /** Digit strings joined by ':' and '.' split back into the same strings. */
  lemma SplitDigits(hh: string, mm: string, ss: string, cc: string)
    requires AllDigits(hh) && AllDigits(mm) && AllDigits(ss) && AllDigits(cc)
    ensures Split(ss + "." + cc, '.') == [ss, cc]
    ensures Split(hh + ":" + mm + ":" + (ss + "." + cc), ':') == [hh, mm, ss + "." + cc]
  {
    SplitTwo(ss, cc, '.');
    NoColon(hh);
    NoColon(mm);
    NoColon(ss);
    NoColon(cc);
    var tail := ss + "." + cc;
    assert ':' !in tail by {
      forall k | 0 <= k < |tail| ensures tail[k] != ':' {
        if k < |ss| {
          assert tail[k] == ss[k];
        } else if k > |ss| {
          assert tail[k] == cc[k - |ss| - 1];
        }
      }
    }
    SplitThree(hh, mm, tail, ':');
  }

  lemma NoColon(s: string)
    requires AllDigits(s)
    ensures ':' !in s && '.' !in s
  {
    forall k | 0 <= k < |s| ensures s[k] != ':' && s[k] != '.' {
      assert IsDigit(s[k]);
    }
  }

  /** Two parts without the separator split back apart. */
  lemma SplitTwo(a: string, b: string, c: char)
    requires c !in a && c !in b
    ensures Split(a + [c] + b, c) == [a, b]
  {
    assert Join([a, b], [c]) == a + [c] + b;
    SplitJoin([a, b], c);
  }

  /** Three parts without the separator split back apart. */
  lemma SplitThree(a: string, b: string, d: string, c: char)
    requires c !in a && c !in b && c !in d
    ensures Split(a + [c] + b + [c] + d, c) == [a, b, d]
  {
    var parts := [a, b, d];
    assert parts[1..] == [b, d] && parts[1..][1..] == [d];
    assert Join([d], [c]) == d;
    assert Join([b, d], [c]) == b + [c] + d;
    assert Join(parts, [c]) == a + [c] + (b + [c] + d);
    assert a + [c] + (b + [c] + d) == a + [c] + b + [c] + d;
    SplitJoin(parts, c);
  }

  lemma ParseParts(hh: string, mm: string, ss: string, cc: string)
    requires |mm| == 2 && |ss| == 2 && |cc| == 2
    requires AllDigits(hh) && AllDigits(mm) && AllDigits(ss) && AllDigits(cc)
    ensures ParseTimestamp(hh + ":" + mm + ":" + (ss + "." + cc))
            == Some(Times(DecimalValue(hh), DecimalValue(mm), DecimalValue(ss), 10 * DecimalValue(cc)))
  {
    SplitDigits(hh, mm, ss, cc);
    var p := Split(hh + ":" + mm + ":" + (ss + "." + cc), ':');
    assert |p| == 3 && p[0] == hh && p[1] == mm && p[2] == ss + "." + cc;
    var q := Split(p[2], '.');
    assert |q| == 2 && q[0] == ss && q[1] == cc;
  }

  // ----- script info -----

  /** `od.update(items)` on an ordered dictionary, one pair at a time. */
  function PutAll(od: Info, items: Info): Info
    decreases |items|
  {
    if items == [] then od else PutAll(Put(od, items[0].0, items[0].1), items[1..])
  }

  /** The dictionary `_write_info` prints: a "ScriptType" sentinel first,
      updated with the document's info, then ScriptType set to v4.00+. */
  function InfoBlock(info: Info): Info {
    Put(PutAll([("ScriptType", "sentinel")], info), "ScriptType", "v4.00+")
  }

  /** The pairs whose key is not `key`, in order. */
  function Without(info: Info, key: string): (r: Info)
    ensures |r| <= |info|
  {
    if info == [] then []
    else (if info[0].0 == key then [] else [info[0]]) + Without(info[1..], key)
  }

  /** Putting a key that is not yet present behind the ScriptType entry appends it. */
  lemma PutFresh(v: string, done: Info, k: string, x: string)
    requires k != "ScriptType" && !HasKey(done, k)
    ensures Put([("ScriptType", v)] + done, k, x) == [("ScriptType", v)] + (done + [(k, x)])
  {
    var od := [("ScriptType", v)] + done;
    assert od[1..] == done;
    PutAbsent(done, k, x);
  }

  /** The invariant of `PutAllAfterScriptType` survives appending the first
      remaining item to the keys already placed. */
  lemma FreshAfterAppend(done: Info, items: Info)
    requires |items| > 0 && items[0].0 != "ScriptType"
    requires Placeable(done, items)
    ensures !HasKey(done + [items[0]], "ScriptType")
    ensures forall i :: 0 <= i < |items[1..]| ==> !HasKey(done + [items[0]], items[1..][i].0)
  {
    var done' := done + [items[0]];
    forall j | 0 <= j < |done'|
      ensures done'[j].0 != "ScriptType"
    {
      if j < |done| {
        assert done'[j] == done[j];
      }
    }
    forall i, j | 0 <= i < |items[1..]| && 0 <= j < |done'|
      ensures done'[j].0 != items[1..][i].0
    {
      assert items[1..][i] == items[i + 1];
      if j < |done| {
        assert done'[j] == done[j];
        assert !HasKey(done, items[i + 1].0);
      } else {
        assert done'[j] == items[0];
      }
    }
  }

  /** `done` holds no "ScriptType" key and no key of `items`, whose keys are unique. */
  predicate Placeable(done: Info, items: Info) {
    && UniqueKeys(items) && !HasKey(done, "ScriptType")
    && forall i :: 0 <= i < |items| ==> !HasKey(done, items[i].0)
  }

  /** The premises of `PutAllAfterScriptType` hold for the remaining items. */
  lemma FreshTail(done: Info, items: Info)
    requires |items| > 0 && UniqueKeys(items)
    requires forall i :: 0 <= i < |items| ==> !HasKey(done, items[i].0)
    ensures UniqueKeys(items[1..])
    ensures forall i :: 0 <= i < |items[1..]| ==> !HasKey(done, items[1..][i].0)
  {
    assert forall i :: 0 <= i < |items[1..]| ==> items[1..][i] == items[i + 1];
  }

  /** Updating `[("ScriptType", v)] + done` with `items`, where no key of
      `done` is "ScriptType" or a key of `items`, keeps ScriptType first
      and appends the other items in order. */
  lemma {:induction false} PutAllAfterScriptType(v: string, done: Info, items: Info)
    requires Placeable(done, items)
    ensures var r := PutAll([("ScriptType", v)] + done, items);
      |r| >= 1 && r[0].0 == "ScriptType" && r[1..] == done + Without(items, "ScriptType")
    decreases |items|, 1
  {
    if items != [] {
      if items[0].0 == "ScriptType" {
        PutAllScriptTypeStep(v, done, items);
      } else {
        PutAllOtherStep(v, done, items);
      }
    }
  }

  /** The first item sets ScriptType again: its value changes, its place does not. */
  lemma {:induction false} PutAllScriptTypeStep(v: string, done: Info, items: Info)
    requires Placeable(done, items)
    requires |items| > 0 && items[0].0 == "ScriptType"
    ensures var r := PutAll([("ScriptType", v)] + done, items);
      |r| >= 1 && r[0].0 == "ScriptType" && r[1..] == done + Without(items, "ScriptType")
    decreases |items|, 0
  {
    var x := items[0].1;
    var od := [("ScriptType", v)] + done;
    assert Placeable(done, items[1..]) by {
      FreshTail(done, items);
    }
    PutAllAfterScriptType(x, done, items[1..]);
    assert PutAll(od, items) == PutAll([("ScriptType", x)] + done, items[1..]) by {
      assert od[1..] == done;
    }
  }

  /** The first item has a new key: it is appended behind the keys placed so far. */
  lemma {:induction false} PutAllOtherStep(v: string, done: Info, items: Info)
    requires Placeable(done, items)
    requires |items| > 0 && items[0].0 != "ScriptType"
    ensures var r := PutAll([("ScriptType", v)] + done, items);
      |r| >= 1 && r[0].0 == "ScriptType" && r[1..] == done + Without(items, "ScriptType")
    decreases |items|, 0
  {
    var k, x := items[0].0, items[0].1;
    var od := [("ScriptType", v)] + done;
    assert Placeable(done + [(k, x)], items[1..]) by {
      FreshAfterAppend(done, items);
      FreshTail([], items);
    }
    PutAllAfterScriptType(v, done + [(k, x)], items[1..]);
    assert PutAll(od, items) == PutAll([("ScriptType", v)] + (done + [(k, x)]), items[1..]) by {
      PutFresh(v, done, k, x);
    }
    assert (done + [(k, x)]) + Without(items[1..], "ScriptType") == done + Without(items, "ScriptType") by {
      assert Without(items, "ScriptType") == [(k, x)] + Without(items[1..], "ScriptType");
    }
  }

  /** The printed info block: ScriptType is always the first key, with value
      v4.00+, and every other key of the document follows in its own order. */
  lemma InfoBlockOrder(info: Info)
    requires UniqueKeys(info)
    ensures InfoBlock(info) == [("ScriptType", "v4.00+")] + Without(info, "ScriptType")
  {
    assert Placeable([], info);
    PutAllAfterScriptType("sentinel", [], info);
    var r := PutAll([("ScriptType", "sentinel")], info);
    assert [("ScriptType", "sentinel")] + [] == [("ScriptType", "sentinel")];
    assert Put(r, "ScriptType", "v4.00+") == [("ScriptType", "v4.00+")] + r[1..];
  }

  /** `print(key, value, sep=': ')` for every pair. */
  function InfoLine(kv: (string, string)): string {
    kv.0 + ": " + kv.1
  }

  function InfoLines(info: Info): (lines: seq<string>)
    ensures |lines| == |info|
  {
    MapLines(info, InfoLine)
  }

  // ----- styles -----

  /** ASS booleans: -1 for true, 0 for false. */
  function BoolField(b: bool): string {
    if b then "-1" else "0"
  }

  /** Only true is written as -1; every flag is -1 or 0. */
  lemma BoolFieldValues(b: bool)
    ensures BoolField(b) == "-1" <==> b
    ensures BoolField(b) in {"-1", "0"}
  {
    assert "0" != "-1" by { assert |"0"| != |"-1"|; }
  }

  /** The fields of a style line in four groups: name, font and size; the
      four colours; the four flags; the remaining twelve. */
  function StyleFieldGroups(s: Style, h: Helpers): (seq<string>, seq<string>, seq<string>, seq<string>) {
    ( [ s.name, s.fontName, h.formatFloat(s.fontSize)],
      [ SerializeColor(s.primaryColor), SerializeColor(s.secondaryColor),
        SerializeColor(s.outlineColor), SerializeColor(s.backColor)],
      [ BoolField(s.bold), BoolField(s.italic), BoolField(s.underline), BoolField(s.strikeOut)],
      [ h.formatFloat(s.scaleX), h.formatFloat(s.scaleY), h.formatFloat(s.spacing), h.formatFloat(s.angle),
        FormatInt(s.borderStyle, 0), h.formatFloat(s.outline), h.formatFloat(s.shadow),
        FormatInt(s.alignment, 0), FormatInt(s.marginLeft, 0), FormatInt(s.marginRight, 0),
        FormatInt(s.marginVertical, 0), FormatInt(s.encoding, 0) ] )
  }

  /** The 23 fields of a style line, in the order of STYLES_FORMAT. */
  function StyleFields(s: Style, h: Helpers): seq<string> {
    var (g1, g2, g3, g4) := StyleFieldGroups(s, h);
    g1 + g2 + g3 + g4
  }

  /** `_write_style`. */
  function StyleLine(s: Style, h: Helpers): string {
    "Style: " + Join(StyleFields(s, h), ",")
  }

  /** A style line is "Style: " and then its fields, comma-separated: when
      no field itself holds a comma, splitting the rest on ',' gives the
      fields back. */
  lemma StyleLineSplits(s: Style, h: Helpers)
    requires forall k :: 0 <= k < |StyleFields(s, h)| ==> ',' !in StyleFields(s, h)[k]
    ensures StyleLine(s, h)[..7] == "Style: "
    ensures Split(StyleLine(s, h)[7..], ',') == StyleFields(s, h)
  {
    var line, f := StyleLine(s, h), StyleFields(s, h);
    assert line[7..] == Join(f, ",");
    SplitJoin(f, ',');
  }

  /** Where the four groups of the style fields land in their concatenation. */
  lemma StyleGroups(g1: seq<string>, g2: seq<string>, g3: seq<string>, g4: seq<string>)
    requires |g1| == 3 && |g2| == 4 && |g3| == 4 && |g4| == 12
    ensures var f := g1 + g2 + g3 + g4;
      && |f| == 23
      && f[0] == g1[0] && f[1] == g1[1]
      && f[3] == g2[0] && f[4] == g2[1] && f[5] == g2[2] && f[6] == g2[3]
      && f[7] == g3[0] && f[8] == g3[1] && f[9] == g3[2] && f[10] == g3[3]
  {
    var f := g1 + g2 + g3 + g4;
    assert f == g1 + (g2 + (g3 + g4));
  }

  /** There are 23 style fields: the name first, then the font, and the
      four colours in the order primary, secondary, outline, back (each of
      which reads back losslessly, by `ColorRoundTrip`). */
  lemma StyleFieldColors(s: Style, h: Helpers)
    ensures var f := StyleFields(s, h);
      && |f| == 23
      && f[0] == s.name && f[1] == s.fontName
      && f[3] == SerializeColor(s.primaryColor) && f[4] == SerializeColor(s.secondaryColor)
      && f[5] == SerializeColor(s.outlineColor) && f[6] == SerializeColor(s.backColor)
  {
    var (g1, g2, g3, g4) := StyleFieldGroups(s, h);
    StyleGroups(g1, g2, g3, g4);
  }

  /** Fields 7 to 10 are the bold, italic, underline and strike-out flags,
      each written by `BoolField` (so -1 when set and 0 otherwise). */
  lemma StyleFieldFlags(s: Style, h: Helpers)
    ensures var f := StyleFields(s, h);
      && |f| == 23
      && f[7] == BoolField(s.bold) && f[8] == BoolField(s.italic)
      && f[9] == BoolField(s.underline) && f[10] == BoolField(s.strikeOut)
  {
    var (g1, g2, g3, g4) := StyleFieldGroups(s, h);
    StyleGroups(g1, g2, g3, g4);
  }

  /** One line per element, in order. */
  function MapLines<T>(xs: seq<T>, line: T -> string): (lines: seq<string>)
    ensures |lines| == |xs|
  {
    if xs == [] then [] else [line(xs[0])] + MapLines(xs[1..], line)
  }

  /** Line `i` is the line of element `i`. */
  lemma {:induction false} MapLinesAt<T>(xs: seq<T>, line: T -> string, i: nat)
    requires i < |xs|
    ensures MapLines(xs, line)[i] == line(xs[i])
  {
    if i > 0 {
      MapLinesAt(xs[1..], line, i - 1);
      assert xs[1..][i - 1] == xs[i];
    }
  }

  function StyleLineOf(h: Helpers): Style -> string {
    s => StyleLine(s, h)
  }

  function StyleLines(styles: seq<Style>, h: Helpers): (lines: seq<string>)
    ensures |lines| == |styles|
  {
    MapLines(styles, StyleLineOf(h))
  }

  /** Line `i` of the style lines is the line of style `i`. */
  lemma StyleLinesAt(styles: seq<Style>, h: Helpers, i: nat)
    requires i < |styles|
    ensures StyleLines(styles, h)[i] == StyleLine(styles[i], h)
  {
    MapLinesAt(styles, StyleLineOf(h), i);
  }

  // ----- events -----

  /** `{TIME:start,end}` when both times are set, nothing otherwise. */
  function TimePrefix(e: Event): string {
    if e.start.Some? && e.end.Some? then
      "{TIME:" + (FormatInt(e.start.value, 0) + "," + FormatInt(e.end.value, 0) + "}")
    else
      ""
  }

  /** `{NOTE:...}` when the note is not empty (newlines written as `\N`
      before escaping), nothing otherwise. */
  function NoteSuffix(e: Event, h: Helpers): string {
    if e.note != "" then "{NOTE:" + (h.escapeAssTag(Replace(e.note, '\n', "\\N")) + "}") else ""
  }

  /** The text field of an event line. */
  function EventText(e: Event, h: Helpers): string {
    TimePrefix(e) + e.text + NoteSuffix(e, h)
  }

  /** The text field carries a `{TIME:...}` prefix exactly when both times
      are set. */
  lemma TimePrefixShape(e: Event)
    ensures var p := TimePrefix(e);
      && (p != "" <==> e.start.Some? && e.end.Some?)
      && (p != "" ==> |p| > 6 && p[..6] == "{TIME:" && p[|p| - 1] == '}')
  {
    if e.start.Some? && e.end.Some? {
      var rest := FormatInt(e.start.value, 0) + "," + FormatInt(e.end.value, 0) + "}";
      PrefixOfConcat("{TIME:", rest);
      assert rest[|rest| - 1] == '}';
    }
  }

  /** The text field carries a `{NOTE:...}` suffix exactly when the note is
      not empty, and the note handed to the escaper holds no newline. */
  lemma NoteSuffixShape(e: Event, h: Helpers)
    ensures var q := NoteSuffix(e, h);
      && (q != "" <==> e.note != "")
      && (q != "" ==> |q| > 6 && q[..6] == "{NOTE:" && q[|q| - 1] == '}')
      && '\n' !in Replace(e.note, '\n', "\\N")
  {
    assert "\\N" == ['\\', 'N'];
    if e.note != "" {
      var rest := h.escapeAssTag(Replace(e.note, '\n', "\\N")) + "}";
      PrefixOfConcat("{NOTE:", rest);
      assert rest[|rest| - 1] == '}';
    }
  }

  /** The event's own text sits unchanged between the prefix and the suffix. */
  lemma EventTextLayout(e: Event, h: Helpers)
    ensures var t, p, q := EventText(e, h), TimePrefix(e), NoteSuffix(e, h);
      && |t| == |p| + |e.text| + |q|
      && t[..|p|] == p && t[|p|..|p| + |e.text|] == e.text && t[|p| + |e.text|..] == q
  {
    ThreeParts(TimePrefix(e), e.text, NoteSuffix(e, h));
  }

  lemma ThreeParts(p: string, m: string, q: string)
    ensures var t := p + m + q;
      && |t| == |p| + |m| + |q|
      && t[..|p|] == p && t[|p|..|p| + |m|] == m && t[|p| + |m|..] == q
  {
    var t := p + m + q;
    assert t[..|p|] == p;
    assert t[|p|..|p| + |m|] == m;
  }

  /** The ten fields of an event line, text last. */
  function EventFields(e: Event, h: Helpers): seq<string>
    requires e.start.Some? && e.end.Some?
  {
    [ FormatInt(e.layer, 0), MsToTimestamp(e.start.value, h), MsToTimestamp(e.end.value, h),
      e.style, e.actor, FormatInt(e.marginLeft, 0), FormatInt(e.marginRight, 0),
      FormatInt(e.marginVertical, 0), e.effect, EventText(e, h) ]
  }

  /** Both times are set, so the event can be written. */
  predicate Timed(e: Event) {
    e.start.Some? && e.end.Some?
  }

  /** An event that can be written. */
  type TimedEvent = e: Event | Timed(e) witness Event(0, Some(0), Some(0), "", "", 0, 0, 0, "", "", "", false)

  /** `_write_event` for an event whose times are set. */
  function EventLine(e: TimedEvent, h: Helpers): string {
    (if e.isComment then "Comment" else "Dialogue") + ": " + Join(EventFields(e, h), ",")
  }

  /** An event line starts with "Comment: " for a comment and "Dialogue: "
      otherwise. */
  lemma EventLineHead(e: TimedEvent, h: Helpers)
    ensures var line := EventLine(e, h);
      && (e.isComment ==> |line| >= 9 && line[..9] == "Comment: ")
      && (!e.isComment ==> |line| >= 10 && line[..10] == "Dialogue: ")
  {
    var head := (if e.isComment then "Comment" else "Dialogue") + ": ";
    assert e.isComment ==> head == "Comment: ";
    assert !e.isComment ==> head == "Dialogue: ";
    assert EventLine(e, h) == head + Join(EventFields(e, h), ",");
    PrefixOfConcat(head, Join(EventFields(e, h), ","));
  }

  lemma PrefixOfConcat(head: string, rest: string)
    ensures (head + rest)[..|head|] == head
  {
  }

  /** An event line has ten fields and ends with a comma and the text
      field, the last of them. */
  lemma EventLineTail(e: TimedEvent, h: Helpers)
    ensures var line, t := EventLine(e, h), EventText(e, h);
      && |EventFields(e, h)| == 10
      && |line| > |t| && line[|line| - |t| - 1] == ',' && line[|line| - |t|..] == t
  {
    var f := EventFields(e, h);
    var head := (if e.isComment then "Comment" else "Dialogue") + ": ";
    assert EventLine(e, h) == head + Join(f, ",");
    assert f[9] == EventText(e, h);
    JoinEndsWith(head, f, ',');
  }

  /** A joined list ends with the separator and its last part. */
  lemma JoinEndsWith(head: string, f: seq<string>, c: char)
    requires |f| >= 2
    ensures var line, t := head + Join(f, [c]), f[|f| - 1];
      |line| > |t| && line[|line| - |t| - 1] == c && line[|line| - |t|..] == t
  {
    var n := |f| - 1;
    JoinSnoc(f[..n], f[n], c);
    assert f[..n] + [f[n]] == f;
    ConcatEnds(head, Join(f[..n], [c]), c, f[n]);
    assert head + Join(f, [c]) == head + Join(f[..n], [c]) + [c] + f[n];
  }

  lemma ConcatEnds(head: string, body: string, c: char, t: string)
    ensures var line := head + body + [c] + t;
      && line[..|head|] == head && |line| > |t| && line[|line| - |t| - 1] == c && line[|line| - |t|..] == t
  {
    var line := head + body + [c] + t;
    assert line[..|head|] == head;
    assert line[|line| - |t|..] == t;
  }

  /** The position of the first event that cannot be written. */
  function FirstUntimed(events: seq<Event>): (i: nat)
    requires exists k :: 0 <= k < |events| && !Timed(events[k])
    ensures i < |events| && !Timed(events[i])
    ensures forall k :: 0 <= k < i ==> Timed(events[k])
  {
    if !Timed(events[0]) then 0
    else
      assert exists k :: 0 <= k < |events[1..]| && !Timed(events[1..][k]) by {
        var k :| 0 <= k < |events| && !Timed(events[k]);
        assert events[1..][k - 1] == events[k];
      }
      var j := FirstUntimed(events[1..]);
      assert forall k :: 1 <= k <= j ==> events[k] == events[1..][k - 1];
      1 + j
  }

  // ----- the whole file -----

  /** `"; " + line` for each of the two lines of NOTICE (`NoticeLinesSplit`
      shows they are the lines NOTICE splits into). */
  function NoticeLines(): seq<string> {
    ["; " + NOTICE_LINES[0], "; " + NOTICE_LINES[1]]
  }

  /** `"[Script Info]"`, the notice and the info block. */
  function InfoSection(info: Info): seq<string> {
    ["[Script Info]"] + NoticeLines() + InfoLines(InfoBlock(info))
  }

  /** `_write_styles`: a blank line, the header, the format line and one line per style. */
  function StyleSection(styles: seq<Style>, h: Helpers): seq<string> {
    ["", "[V4+ Styles]", STYLES_FORMAT] + StyleLines(styles, h)
  }

  /** `_write_events`: a blank line, the header, the format line and one line per event. */
  function EventSection(events: seq<TimedEvent>, h: Helpers): seq<string> {
    ["", "[Events]", EVENTS_FORMAT] + EventLines(events, h)
  }

  function EventLineOf(h: Helpers): TimedEvent -> string {
    (e: TimedEvent) => EventLine(e, h)
  }

  function EventLines(events: seq<TimedEvent>, h: Helpers): (lines: seq<string>)
    ensures |lines| == |events|
  {
    MapLines(events, EventLineOf(h))
  }

  /** Line `i` of the event lines is the line of event `i`. */
  lemma EventLinesAt(events: seq<TimedEvent>, h: Helpers, i: nat)
    requires i < |events|
    ensures EventLines(events, h)[i] == EventLine(events[i], h)
  {
    MapLinesAt(events, EventLineOf(h), i);
  }

  /** `write_ass`: the printed lines, or the first event that cannot be written. */
  function WriteAss(doc: Document, h: Helpers): Result<seq<string>, WriteError> {
    if exists k :: 0 <= k < |doc.events| && !Timed(doc.events[k]) then
      Failure(MissingTime(FirstUntimed(doc.events)))
    else
      Success(FileLines(doc, h))
  }

  /** The printed lines of a document whose events all have their times. */
  function FileLines(doc: Document, h: Helpers): seq<string>
    requires forall i :: 0 <= i < |doc.events| ==> Timed(doc.events[i])
  {
    Assemble(InfoSection(doc.info), doc.styles, doc.events, h)
  }

  /** The lines `a` of an info section, then the style and event sections. */
  function Assemble(a: seq<string>, styles: seq<Style>, events: seq<TimedEvent>, h: Helpers): seq<string> {
    a + StyleSection(styles, h) + EventSection(events, h)
  }

  /** The notice lines are `"; "` followed by each line NOTICE splits into
      at its newlines. */
  lemma NoticeLinesSplit()
    ensures var parts := Split(NOTICE, '\n');
      && |NoticeLines()| == |parts|
      && forall i :: 0 <= i < |parts| ==> NoticeLines()[i] == "; " + parts[i]
  {
    assert Join(NOTICE_LINES, "\n") == NOTICE by {
      assert NOTICE_LINES[1..] == ["https://github.com/rr-/bubblesub"];
    }
    assert '\n' !in NOTICE_LINES[0] && '\n' !in NOTICE_LINES[1];
    SplitJoin(NOTICE_LINES, '\n');
  }

  /** The printed info block: "ScriptType: v4.00+" first, then every other
      key of the document in its own order. */
  lemma InfoBlockLines(info: Info)
    requires UniqueKeys(info)
    ensures var lines, rest := InfoLines(InfoBlock(info)), Without(info, "ScriptType");
      && |lines| == 1 + |rest|
      && lines[0] == "ScriptType: v4.00+"
      && (forall i :: 0 <= i < |rest| ==> lines[1 + i] == rest[i].0 + ": " + rest[i].1)
  {
    InfoBlockOrder(info);
    var block := InfoBlock(info);
    var rest := Without(info, "ScriptType");
    assert block[0] == ("ScriptType", "v4.00+");
    MapLinesAt(block, InfoLine, 0);
    forall i | 0 <= i < |rest|
      ensures InfoLines(block)[1 + i] == rest[i].0 + ": " + rest[i].1
    {
      assert block[1 + i] == rest[i];
      MapLinesAt(block, InfoLine, 1 + i);
    }
  }

  /** The info section: the "[Script Info]" header, the two notice lines,
      "ScriptType: v4.00+", then every other key of the document in its own
      order. */
  lemma InfoSectionLayout(info: Info)
    requires UniqueKeys(info)
    ensures var r, rest := InfoSection(info), Without(info, "ScriptType");
      && |r| == 4 + |rest|
      && r[0] == "[Script Info]"
      && r[1] == "; " + NOTICE_LINES[0] && r[2] == "; " + NOTICE_LINES[1]
      && r[3] == "ScriptType: v4.00+"
      && (forall i :: 0 <= i < |rest| ==> r[4 + i] == rest[i].0 + ": " + rest[i].1)
  {
    var notice, lines := NoticeLines(), InfoLines(InfoBlock(info));
    InfoBlockLines(info);
    Concat3(["[Script Info]"], notice, lines);
  }

  /** Indexing into the concatenation of three line lists. */
  lemma Concat3(a: seq<string>, b: seq<string>, c: seq<string>)
    ensures var r := a + b + c;
      && |r| == |a| + |b| + |c|
      && r[..|a|] == a
      && (forall i :: 0 <= i < |b| ==> r[|a| + i] == b[i])
      && (forall i :: 0 <= i < |c| ==> r[|a| + |b| + i] == c[i])
  {
    var r := a + b + c;
    assert r[..|a|] == a;
  }

  /** Writing fails exactly when some event lacks a time, and then names
      the first such event; otherwise it prints the file's lines. */
  lemma WriteAssFails(doc: Document, h: Helpers)
    ensures WriteAss(doc, h).Success? <==> forall i :: 0 <= i < |doc.events| ==> Timed(doc.events[i])
    ensures WriteAss(doc, h).Success? ==> WriteAss(doc, h).value == FileLines(doc, h)
    ensures WriteAss(doc, h).Failure? ==>
      var k := WriteAss(doc, h).error.eventIndex;
      k < |doc.events| && !Timed(doc.events[k]) && forall i :: 0 <= i < k ==> Timed(doc.events[i])
  {
  }

  /** The `i`-th style line sits three lines after the first part. */
  lemma StyleIndex(a: seq<string>, sl: seq<string>, el: seq<string>, i: nat)
    requires i < |sl|
    ensures (a + (["", "[V4+ Styles]", STYLES_FORMAT] + sl) + (["", "[Events]", EVENTS_FORMAT] + el))[|a| + 3 + i] == sl[i]
  {
    var b := ["", "[V4+ Styles]", STYLES_FORMAT] + sl;
    assert (a + b)[|a| + 3 + i] == b[3 + i];
  }

  /** The `i`-th event line sits six lines after the first part and the style lines. */
  lemma EventIndex(a: seq<string>, sl: seq<string>, el: seq<string>, i: nat)
    requires i < |el|
    ensures (a + (["", "[V4+ Styles]", STYLES_FORMAT] + sl) + (["", "[Events]", EVENTS_FORMAT] + el))[|a| + 6 + |sl| + i] == el[i]
  {
    var b, c := ["", "[V4+ Styles]", STYLES_FORMAT] + sl, ["", "[Events]", EVENTS_FORMAT] + el;
    assert (a + b + c)[|a + b| + 3 + i] == c[3 + i];
  }

  /** Positions in a file made of a first part, a style section holding
      the lines `sl` and an event section holding the lines `el`. */
  lemma SectionsLayout(a: seq<string>, sl: seq<string>, el: seq<string>)
    ensures var b, c := ["", "[V4+ Styles]", STYLES_FORMAT] + sl, ["", "[Events]", EVENTS_FORMAT] + el;
      var r, n, m := a + b + c, |a|, |sl|;
      && |r| == n + 3 + m + 3 + |el|
      && r[..n] == a
      && r[n] == "" && r[n + 1] == "[V4+ Styles]" && r[n + 2] == STYLES_FORMAT
      && (forall i :: 0 <= i < m ==> r[n + 3 + i] == sl[i])
      && r[n + 3 + m] == "" && r[n + 4 + m] == "[Events]" && r[n + 5 + m] == EVENTS_FORMAT
      && (forall i :: 0 <= i < |el| ==> r[n + 6 + m + i] == el[i])
  {
    SectionsAt(a, ["", "[V4+ Styles]", STYLES_FORMAT], sl, ["", "[Events]", EVENTS_FORMAT], el);
  }

  /** Positions in `a` followed by two sections, each a three-line head `h`
      or `g` and its body `sl` or `el`. */
  lemma SectionsAt<T>(a: seq<T>, h: seq<T>, sl: seq<T>, g: seq<T>, el: seq<T>)
    requires |h| == 3 && |g| == 3
    ensures var r, n, m := a + (h + sl) + (g + el), |a|, |sl|;
      && |r| == n + 3 + m + 3 + |el|
      && r[..n] == a
      && r[n] == h[0] && r[n + 1] == h[1] && r[n + 2] == h[2]
      && (forall i :: 0 <= i < m ==> r[n + 3 + i] == sl[i])
      && r[n + 3 + m] == g[0] && r[n + 4 + m] == g[1] && r[n + 5 + m] == g[2]
      && (forall i :: 0 <= i < |el| ==> r[n + 6 + m + i] == el[i])
  {
    var b, c := h + sl, g + el;
    var r, n, m := a + b + c, |a|, |sl|;
    assert r[..n] == a;
    forall i | 0 <= i < |b| ensures r[n + i] == b[i] {
    }
    forall i | 0 <= i < |c| ensures r[n + |b| + i] == c[i] {
    }
    forall i | 0 <= i < m ensures r[n + 3 + i] == sl[i] {
      assert r[n + (3 + i)] == b[3 + i];
    }
    forall i | 0 <= i < |el| ensures r[n + 6 + m + i] == el[i] {
      assert r[n + |b| + (3 + i)] == c[3 + i];
    }
    assert r[n + 3 + m] == c[0] && r[n + 4 + m] == c[1] && r[n + 5 + m] == c[2];
  }

  /** The file is its info section followed by the headers of the style
      and event sections, with one line per style and per event between
      them. */
  lemma AssembleLayout(a: seq<string>, styles: seq<Style>, events: seq<TimedEvent>, h: Helpers)
    ensures var r, n, m := Assemble(a, styles, events, h), |a|, |styles|;
      && |r| == n + 3 + m + 3 + |events|
      && r[..n] == a
      && r[n] == "" && r[n + 1] == "[V4+ Styles]" && r[n + 2] == STYLES_FORMAT
      && r[n + 3 + m] == "" && r[n + 4 + m] == "[Events]" && r[n + 5 + m] == EVENTS_FORMAT
  {
    var sl, el := StyleLines(styles, h), EventLines(events, h);
    assert Assemble(a, styles, events, h) == a + (["", "[V4+ Styles]", STYLES_FORMAT] + sl) + (["", "[Events]", EVENTS_FORMAT] + el);
    SectionsLayout(a, sl, el);
  }

  /** The style lines of the file are those of the document's styles, in order. */
  lemma AssembleStyleLines(a: seq<string>, styles: seq<Style>, events: seq<TimedEvent>, h: Helpers)
    ensures var r, n := Assemble(a, styles, events, h), |a|;
      && |r| >= n + 3 + |styles|
      && forall i :: 0 <= i < |styles| ==> r[n + 3 + i] == StyleLine(styles[i], h)
  {
    var sl, el := StyleLines(styles, h), EventLines(events, h);
    forall i | 0 <= i < |styles|
      ensures Assemble(a, styles, events, h)[|a| + 3 + i] == StyleLine(styles[i], h)
    {
      StyleIndex(a, sl, el, i);
      StyleLinesAt(styles, h, i);
    }
  }

  /** The event lines of the file are those of the document's events, in
      order, and close the file. */
  lemma AssembleEventLines(a: seq<string>, styles: seq<Style>, events: seq<TimedEvent>, h: Helpers)
    ensures var r, k := Assemble(a, styles, events, h), |a| + 6 + |styles|;
      && |r| == k + |events|
      && forall i :: 0 <= i < |events| ==> r[k + i] == EventLine(events[i], h)
  {
    forall i | 0 <= i < |events|
      ensures Assemble(a, styles, events, h)[|a| + 6 + |styles| + i] == EventLine(events[i], h)
    {
      AssembleEventAt(a, styles, events, h, i);
    }
    AssembleLayout(a, styles, events, h);
  }

  /** Event line `i` of the file, six lines after the first part and the
      style lines. */
  lemma AssembleEventAt(a: seq<string>, styles: seq<Style>, events: seq<TimedEvent>, h: Helpers, i: nat)
    requires i < |events|
    ensures |Assemble(a, styles, events, h)| == |a| + 6 + |styles| + |events|
    ensures Assemble(a, styles, events, h)[|a| + 6 + |styles| + i] == EventLine(events[i], h)
  {
    var sl, el := StyleLines(styles, h), EventLines(events, h);
    var b, g := a + (["", "[V4+ Styles]", STYLES_FORMAT] + sl), ["", "[Events]", EVENTS_FORMAT];
    assert Assemble(a, styles, events, h) == b + (g + el);
    TailAt(b, g, el);
    EventLinesAt(events, h, i);
  }

  /** Positions in `b` followed by a head `g` and a body `el`. */
  lemma TailAt<T>(b: seq<T>, g: seq<T>, el: seq<T>)
    ensures |b + (g + el)| == |b| + |g| + |el|
    ensures forall i :: 0 <= i < |el| ==> (b + (g + el))[|b| + |g| + i] == el[i]
  {
  }


}
