/** The in-memory Advanced SubStation Alpha document that the subtitles API
    edits and the writer serialises: colours, styles, events and the ordered
    "Script Info" metadata. */
module Ass {
  import opened Wrappers

  type Byte = b: int | 0 <= b < 256

  datatype Color = Color(red: Byte, green: Byte, blue: Byte, alpha: Byte)

  /** A style; the numeric fields that the source keeps as floats are `real`. */
  datatype Style = Style(
    name: string,
    fontName: string,
    fontSize: real,
    primaryColor: Color,
    secondaryColor: Color,
    outlineColor: Color,
    backColor: Color,
    bold: bool,
    italic: bool,
    underline: bool,
    strikeOut: bool,
    scaleX: real,
    scaleY: real,
    spacing: real,
    angle: real,
    borderStyle: int,
    outline: real,
    shadow: real,
    alignment: int,
    marginLeft: int,
    marginRight: int,
    marginVertical: int,
    encoding: int)

  /** `Style(name=...)`: the remaining defaults of the style class are not
      part of this model, so they are fixed to neutral values here. */
  function NewStyle(name: string): (s: Style)
    ensures s.name == name
  {
    var white := Color(255, 255, 255, 0);
    var black := Color(0, 0, 0, 0);
    Style(name, "Arial", 20.0, white, white, black, black, false, false, false, false,
          100.0, 100.0, 0.0, 0.0, 1, 2.0, 2.0, 2, 10, 10, 10, 1)
  }

  /** An event; start and end may be absent (`None`) in this version of the event class. */
  datatype Event = Event(
    layer: int,
    start: Option<int>,
    end: Option<int>,
    style: string,
    actor: string,
    marginLeft: int,
    marginRight: int,
    marginVertical: int,
    effect: string,
    text: string,
    note: string,
    isComment: bool)

  /** The "Script Info" metadata: an insertion-ordered dictionary, as a list of pairs. */
  type Info = seq<(string, string)>

  predicate HasKey(info: Info, key: string) {
    exists i :: 0 <= i < |info| && info[i].0 == key
  }

  /** Dictionary keys are unique. */
  predicate UniqueKeys(info: Info) {
    forall i, j :: 0 <= i < j < |info| ==> info[i].0 != info[j].0
  }

  /** `info.get(key, default)`. */
  function Get(info: Info, key: string, default: string): (v: string)
    ensures !HasKey(info, key) ==> v == default
    ensures UniqueKeys(info) ==> forall i :: 0 <= i < |info| && info[i].0 == key ==> v == info[i].1
  {
    if info == [] then default
    else if info[0].0 == key then info[0].1
    else
      var v := Get(info[1..], key, default);
      assert forall i :: 1 <= i < |info| ==> info[1..][i - 1] == info[i];
      assert !HasKey(info, key) ==> !HasKey(info[1..], key);
      v
  }

  /** `info[key] = value` on an ordered dictionary: an existing key keeps its
      position and takes the new value; a new key is appended. */
  function Put(info: Info, key: string, value: string): Info {
    if info == [] then [(key, value)]
    else if info[0].0 == key then [(key, value)] + info[1..]
    else [info[0]] + Put(info[1..], key, value)
  }

  /** Assigning to a key that is absent appends the pair. */
  lemma {:induction false} PutAbsent(info: Info, key: string, value: string)
    requires !HasKey(info, key)
    ensures Put(info, key, value) == info + [(key, value)]
  {
    if info != [] {
      assert info[0].0 != key;
      assert !HasKey(info[1..], key) by {
        forall i | 0 <= i < |info[1..]|
          ensures info[1..][i].0 != key
        {
          assert info[1..][i] == info[i + 1];
        }
      }
      PutAbsent(info[1..], key, value);
      assert [info[0]] + (info[1..] + [(key, value)]) == info + [(key, value)];
    }
  }

  /** Assigning to a key that is present replaces the value of its first
      pair and leaves every other pair where and as it was. */
  lemma {:induction false} PutPresent(info: Info, key: string, value: string, i: nat)
    requires i < |info| && info[i].0 == key
    requires forall j :: 0 <= j < i ==> info[j].0 != key
    ensures Put(info, key, value) == info[..i] + [(key, value)] + info[i + 1..]
  {
    if i > 0 {
      assert info[0].0 != key;
      forall j | 0 <= j < i - 1
        ensures info[1..][j].0 != key
      {
        assert info[1..][j] == info[j + 1];
      }
      PutPresent(info[1..], key, value, i - 1);
      assert info[1..][..i - 1] == info[1..i];
      assert info[1..][i..] == info[i + 1..];
      assert [info[0]] + info[1..i] == info[..i];
    }
  }

  /** Assigning to a key held at position `i` of a dictionary changes that
      pair's value and nothing else. */
  lemma PutReplaces(info: Info, key: string, value: string, i: nat)
    requires UniqueKeys(info) && i < |info| && info[i].0 == key
    ensures var r := Put(info, key, value);
      |r| == |info| && forall j :: 0 <= j < |info| ==> r[j] == if j == i then (key, value) else info[j]
  {
    PutPresent(info, key, value, i);
    var r := Put(info, key, value);
    forall j | 0 <= j < |info|
      ensures r[j] == if j == i then (key, value) else info[j]
    {
      if j < i {
        assert r[j] == info[..i][j];
      } else if j > i {
        assert r[j] == info[i + 1..][j - i - 1];
      }
    }
  }

  /** On a dictionary, assignment stores the value under the key, leaves
      every other pair where and as it was, appends a key that was absent,
      and keeps the keys unique. */
  lemma PutSpec(info: Info, key: string, value: string)
    requires UniqueKeys(info)
    ensures var r := Put(info, key, value);
      && UniqueKeys(r)
      && Get(r, key, "") == value
      && (HasKey(info, key) ==> |r| == |info| && forall i :: 0 <= i < |info| ==> r[i] == if info[i].0 == key then (key, value) else info[i])
      && (!HasKey(info, key) ==> r == info + [(key, value)])
  {
    var r := Put(info, key, value);
    if HasKey(info, key) {
      var i :| 0 <= i < |info| && info[i].0 == key;
      PutReplaces(info, key, value, i);
      assert forall j :: 0 <= j < |info| ==> (info[j].0 == key <==> j == i);
      assert forall j :: 0 <= j < |r| ==> r[j].0 == info[j].0;
      assert r[i] == (key, value);
    } else {
      PutAbsent(info, key, value);
      assert forall j :: 0 <= j < |info| ==> info[j].0 != key;
      assert r[|info|] == (key, value);
    }
  }

  /** Reading back the key just assigned gives the assigned value. */
  lemma {:induction false} GetPutSame(info: Info, key: string, value: string, default: string)
    ensures Get(Put(info, key, value), key, default) == value
  {
    if info != [] && info[0].0 != key {
      GetPutSame(info[1..], key, value, default);
      assert Put(info, key, value)[1..] == Put(info[1..], key, value);
    }
  }

  /** Assigning one key does not change what any other key reads. */
  lemma {:induction false} GetPutOther(info: Info, key: string, value: string, other: string, default: string)
    requires other != key
    ensures Get(Put(info, key, value), other, default) == Get(info, other, default)
  {
    if info == [] {
      assert !HasKey(Put(info, key, value), other);
    } else if info[0].0 == key {
      assert Put(info, key, value)[1..] == info[1..];
    } else if info[0].0 != other {
      GetPutOther(info[1..], key, value, other, default);
      assert Put(info, key, value)[1..] == Put(info[1..], key, value);
    }
  }

  /** An ASS file: metadata, styles and events. */
  datatype Document = Document(info: Info, styles: seq<Style>, events: seq<Event>)
}
