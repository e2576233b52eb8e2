/** The menu configuration (`menu.conf`): a line-oriented text in which
    `[name]` headers pick the GUI context and indentation nests sub-menus,
    read into one list of menu items per context. */
module Menu {
  import opened Wrappers
  import opened Strings

  /** Which GUI widget a menu appears in. */
  datatype MenuContext = MainMenu | SubtitlesGrid

  /** The value each context is spelled with in a header. */
  function ContextValue(c: MenuContext): string {
    match c
    case MainMenu => "main"
    case SubtitlesGrid => "subtitles_grid"
  }

  /** `MenuContext(value)`: the context spelled `value`, if there is one. */
  function ContextOf(value: string): (c: Option<MenuContext>)
    ensures forall ctx :: c == Some(ctx) <==> ContextValue(ctx) == value
  {
    if value == "main" then Some(MainMenu)
    else if value == "subtitles_grid" then Some(SubtitlesGrid)
    else None
  }

  datatype MenuItem =
    | MenuCommand(name: string, cmdline: string)
    | MenuSeparator
    | SubMenu(name: string, children: seq<MenuItem>)

  datatype ConfigError = ConfigError(message: string)

  /** The error for a header naming no context. */
  function ContextError(name: string): ConfigError {
    ConfigError("\"" + name + "\" is not a valid menu context")
  }

  // ----- the line loop of `_loads` -----

  /** The pattern `^\[(.*)\]$` on a line without line breaks: the text
      between the brackets of a header. */
  function HeaderName(line: string): (name: Option<string>)
    ensures name.Some? <==> |line| >= 2 && line[0] == '[' && line[|line| - 1] == ']'
    ensures name.Some? ==> line == "[" + name.value + "]"
  {
    if |line| >= 2 && line[0] == '[' && line[|line| - 1] == ']' then Some(line[1..|line| - 1]) else None
  }

  /** What the line loop makes of one line of the file. */
  datatype LineKind = Ignored | Header(name: string) | Content(line: string)

  /** A line that is empty once trailing whitespace is dropped, or that
      starts with `#`, is ignored; a bracketed line is a header; anything
      else, without its trailing whitespace, is content. */
  function Classify(raw: string): LineKind {
    var line := RStrip(raw);
    if line == [] || line[0] == '#' then Ignored
    else
      match HeaderName(line)
      case Some(name) => Header(name)
      case None => Content(line)
  }

  /** A header naming no context. */
  predicate BadHeader(raw: string) {
    Classify(raw).Header? && ContextOf(Classify(raw).name).None?
  }

  /** The state of the line loop: the current context and the text gathered
      for each context so far. */
  datatype Scan = Scan(context: MenuContext, sections: map<MenuContext, string>)

  /** The text gathered for `c`, the empty string before the first line. */
  function Gathered(sections: map<MenuContext, string>, c: MenuContext): string {
    if c in sections then sections[c] else ""
  }

  /** One turn of the line loop. */
  function ScanLine(s: Scan, raw: string): Result<Scan, ConfigError> {
    match Classify(raw)
    case Ignored => Success(s)
    case Header(name) =>
      (match ContextOf(name)
       case Some(c) => Success(s.(context := c))
       case None => Failure(ContextError(name)))
    case Content(line) =>
      Success(s.(sections := s.sections[s.context := Gathered(s.sections, s.context) + line + "\n"]))
  }

  /** The line loop over `lines`, starting in the main menu's context with
      nothing gathered; the first bad header ends it. */
  function ScanLines(lines: seq<string>): Result<Scan, ConfigError> {
    if lines == [] then Success(Scan(MainMenu, map[]))
    else
      match ScanLines(lines[..|lines| - 1])
      case Failure(e) => Failure(e)
      case Success(s) => ScanLine(s, lines[|lines| - 1])
  }

  /** Once the loop has failed on a prefix, the rest of the lines are not looked at. */
  lemma {:induction false} ScanStaysFailed(lines: seq<string>, k: nat)
    requires k <= |lines| && ScanLines(lines[..k]).Failure?
    ensures ScanLines(lines) == ScanLines(lines[..k])
    decreases |lines|
  {
    if k < |lines| {
      var prefix := lines[..|lines| - 1];
      assert prefix[..k] == lines[..k];
      ScanStaysFailed(prefix, k);
    } else {
      assert lines[..k] == lines;
    }
  }

  /** The context in force after `lines`: that of the last valid header,
      the main menu if there is none. */
  function LastContext(lines: seq<string>): MenuContext {
    if lines == [] then MainMenu
    else
      var kind := Classify(lines[|lines| - 1]);
      if kind.Header? && ContextOf(kind.name).Some? then ContextOf(kind.name).value
      else LastContext(lines[..|lines| - 1])
  }

  /** The content lines that `c` governs, in file order, each followed by a
      line break. */
  function Collect(lines: seq<string>, c: MenuContext): string {
    if lines == [] then ""
    else
      var prefix := lines[..|lines| - 1];
      var kind := Classify(lines[|lines| - 1]);
      Collect(prefix, c) + (if kind.Content? && LastContext(prefix) == c then kind.line + "\n" else "")
  }

  /** The loop ends in the context of the last valid header, and gathers for
      each context exactly the content lines below its headers, however
      many of them there are; lines before any header go to the main menu. */
  lemma {:induction false} ScanCollects(lines: seq<string>)
    requires ScanLines(lines).Success?
    ensures ScanLines(lines).value.context == LastContext(lines)
    ensures forall c :: Gathered(ScanLines(lines).value.sections, c) == Collect(lines, c)
    ensures forall c :: c in ScanLines(lines).value.sections <==> Collect(lines, c) != []
  {
    if lines != [] {
      var prefix := lines[..|lines| - 1];
      ScanCollects(prefix);
    }
  }

  /** Without headers, everything is gathered for the main menu. */
  lemma {:induction false} NoHeaderIsMain(lines: seq<string>)
    requires forall k :: 0 <= k < |lines| ==> !Classify(lines[k]).Header?
    ensures LastContext(lines) == MainMenu
    ensures Collect(lines, SubtitlesGrid) == []
  {
    if lines != [] {
      var prefix := lines[..|lines| - 1];
      assert forall k :: 0 <= k < |prefix| ==> prefix[k] == lines[k];
      NoHeaderIsMain(prefix);
    }
  }

  /** The loop fails exactly when some line is a header naming no context. */
  lemma {:induction false} ScanFails(lines: seq<string>)
    ensures ScanLines(lines).Failure? <==> exists k :: 0 <= k < |lines| && BadHeader(lines[k])
  {
    if lines != [] {
      var prefix := lines[..|lines| - 1];
      ScanFails(prefix);
      assert forall k :: 0 <= k < |prefix| ==> prefix[k] == lines[k];
      if ScanLines(prefix).Failure? {
        var k :| 0 <= k < |prefix| && BadHeader(prefix[k]);
        assert BadHeader(lines[k]);
      } else if ScanLines(lines).Failure? {
        assert BadHeader(lines[|lines| - 1]);
      }
    }
  }

  /** The error names the first bad header. */
  lemma {:induction false} ScanFirstError(lines: seq<string>, k: nat)
    requires k < |lines| && BadHeader(lines[k])
    requires forall j :: 0 <= j < k ==> !BadHeader(lines[j])
    ensures ScanLines(lines) == Failure(ContextError(Classify(lines[k]).name))
  {
    var prefix := lines[..|lines| - 1];
    if k < |prefix| {
      assert forall j :: 0 <= j <= k ==> prefix[j] == lines[j];
      ScanFirstError(prefix, k);
    } else {
      ScanFails(prefix);
      assert forall j :: 0 <= j < |prefix| ==> prefix[j] == lines[j];
    }
  }

  // ----- `_recurse_tree` -----

  /** A line as `_recurse_tree` looks at it: its text without trailing
      whitespace, the number of spaces anywhere in that text (the line's
      depth), and the token left once the text is stripped on both sides. */
  datatype Line = Line(text: string, tabs: nat, token: string)

  function Analyse(raw: string): Line {
    var text := RStrip(raw);
    Line(text, Count(text, ' '), Strip(text))
  }

  /** `f` applied to every element of `s`, in order. */
  function Map<A, B>(f: A -> B, s: seq<A>): (r: seq<B>)
    ensures |r| == |s|
  {
    if s == [] then [] else [f(s[0])] + Map(f, s[1..])
  }

  lemma {:induction false} MapAt<A, B>(f: A -> B, s: seq<A>, i: nat)
    requires i < |s|
    ensures Map(f, s)[i] == f(s[i])
  {
    if i > 0 {
      MapAt(f, s[1..], i - 1);
    }
  }

  lemma {:induction false} MapConcat<A, B>(f: A -> B, a: seq<A>, b: seq<A>)
    ensures Map(f, a + b) == Map(f, a) + Map(f, b)
  {
    if a != [] {
      assert (a + b)[0] == a[0];
      assert (a + b)[1..] == a[1..] + b;
      MapConcat(f, a[1..], b);
      assert Map(f, a + b) == [f(a[0])] + (Map(f, a[1..]) + Map(f, b));
    } else {
      assert a + b == b;
    }
  }

  /** Every line of `source`, analysed. */
  function Analysed(source: seq<string>): (lines: seq<Line>)
    ensures |lines| == |source|
  {
    Map(Analyse, source)
  }

  lemma AnalysedAt(source: seq<string>, i: nat)
    requires i < |source|
    ensures Analysed(source)[i] == Analyse(source[i])
  {
    MapAt(Analyse, source, i);
  }

  /** A line the parser at `depth` reads: not blank, and at least `depth` deep. */
  predicate Deep(line: Line, depth: nat) {
    line.text != [] && line.tabs >= depth
  }

  /** `_recurse_tree(parent, depth, source)` with the shared `source` list
      read through a cursor: the items read at `depth` from line `pos` on,
      and the position of the first line left for the caller. */
  function Tree(depth: nat, lines: seq<Line>, pos: nat): (r: (seq<MenuItem>, nat))
    requires pos <= |lines|
    ensures pos <= r.1 <= |lines|
    ensures r.0 == [] <==> r.1 == pos
    decreases |lines| - pos, 1
  {
    if pos == |lines| || !Deep(lines[pos], depth) then ([], pos)
    else
      var first := Item(lines, pos);
      var more := Tree(depth, lines, first.1);
      ([first.0] + more.0, more.1)
  }

  /** One turn of the loop in `_recurse_tree`: the item on line `pos`, and
      the line after it and, for a sub-menu, after its children. `-` is a
      separator; a token without `|` opens a sub-menu whose children are the
      following lines deeper than this one; otherwise the text before the
      first `|` is the label and the rest the command line. */
  function Item(lines: seq<Line>, pos: nat): (r: (MenuItem, nat))
    requires pos < |lines|
    ensures pos < r.1 <= |lines|
    decreases |lines| - pos, 0
  {
    var token := lines[pos].token;
    if token == "-" then (MenuSeparator, pos + 1)
    else if '|' !in token then
      var sub := Tree(lines[pos].tabs + 1, lines, pos + 1);
      (SubMenu(token, sub.0), sub.1)
    else
      var bar := IndexOf(token, '|');
      (MenuCommand(token[..bar], token[bar + 1..]), pos + 1)
  }

  /** `_recurse_tree`: the loop reads items while lines are deep enough and
      recurses one level below the depth of each sub-menu's line. */
  method RecurseTree(depth: nat, lines: seq<Line>, start: nat) returns (items: seq<MenuItem>, pos: nat)
    requires start <= |lines|
    ensures (items, pos) == Tree(depth, lines, start)
    decreases |lines| - start, 1
  {
    items := [];
    pos := start;
    assert [] + Tree(depth, lines, start).0 == Tree(depth, lines, start).0;
    while pos < |lines|
      invariant start <= pos <= |lines|
      invariant Tree(depth, lines, start).0 == items + Tree(depth, lines, pos).0
      invariant Tree(depth, lines, start).1 == Tree(depth, lines, pos).1
      decreases |lines| - pos
    {
      var line := lines[pos];
      if line.text == [] {
        break;
      }
      if line.tabs < depth {
        break;
      }
      ghost var at := pos;
      var item;
      item, pos := ReadItem(lines, pos);
      TreeStep(depth, lines, at);
      assert items + ([item] + Tree(depth, lines, pos).0) == items + [item] + Tree(depth, lines, pos).0;
      items := items + [item];
    }
    assert items + [] == items;
  }

  /** The body of the loop in `_recurse_tree` for the line at `pos`. */
  method ReadItem(lines: seq<Line>, pos: nat) returns (item: MenuItem, next: nat)
    requires pos < |lines|
    ensures (item, next) == Item(lines, pos)
    decreases |lines| - pos, 0
  {
    var line := lines[pos];
    var token := line.token;
    next := pos + 1;
    if token == "-" {
      item := MenuSeparator;
    } else if '|' !in token {
      var children;
      children, next := RecurseTree(line.tabs + 1, lines, next);
      item := SubMenu(token, children);
    } else {
      var bar := IndexOf(token, '|');
      item := MenuCommand(token[..bar], token[bar + 1..]);
    }
  }

  /** One turn of the loop: a deep enough line gives an item, and reading
      goes on after it. */
  lemma TreeStep(depth: nat, lines: seq<Line>, pos: nat)
    requires pos < |lines| && Deep(lines[pos], depth)
    ensures Tree(depth, lines, pos).0 == [Item(lines, pos).0] + Tree(depth, lines, Item(lines, pos).1).0
    ensures Tree(depth, lines, pos).1 == Tree(depth, lines, Item(lines, pos).1).1
  {
  }

  // ----- writing a menu back -----

  /** Text without whitespace. */
  predicate Word(s: string) {
    forall i :: 0 <= i < |s| ==> !IsSpace(s[i])
  }

  function Spaces(n: nat): (s: string)
    ensures |s| == n && forall i :: 0 <= i < n ==> s[i] == ' '
  {
    seq(n, i => ' ')
  }

  /** Items whose labels and command lines are words, with no `|` in a
      label and no sub-menu that is empty-named or named `-`: the items the
      format can express when depth is read by counting spaces. */
  predicate Writable(items: seq<MenuItem>)
    decreases items
  {
    items == [] ||
    ((match items[0]
      case MenuSeparator => true
      case MenuCommand(name, cmdline) => Word(name) && '|' !in name && Word(cmdline)
      case SubMenu(name, children) =>
        name != [] && name != "-" && Word(name) && '|' !in name && Writable(children))
     && Writable(items[1..]))
  }

  /** A token written on a line of its own after `depth` spaces. */
  function Indented(depth: nat, token: string): Line {
    Line(Spaces(depth) + token, depth, token)
  }

  /** The lines `items` are written as at `depth`: each item on a line of
      its own, a sub-menu's children below it one level deeper. */
  function Layout(items: seq<MenuItem>, depth: nat): seq<Line>
    decreases items, 1
  {
    if items == [] then [] else LayoutFirst(items, depth) + Layout(items[1..], depth)
  }

  /** The lines of the first item. */
  function LayoutFirst(items: seq<MenuItem>, depth: nat): (lines: seq<Line>)
    requires items != []
    ensures |lines| >= 1
    decreases items, 0
  {
    match items[0]
    case MenuSeparator => [Indented(depth, "-")]
    case MenuCommand(name, cmdline) => [Indented(depth, name + "|" + cmdline)]
    case SubMenu(name, children) => [Indented(depth, name)] + Layout(children, depth + 1)
  }

  function Texts(lines: seq<Line>): (texts: seq<string>)
    ensures |texts| == |lines|
  {
    if lines == [] then [] else [lines[0].text] + Texts(lines[1..])
  }

  lemma {:induction false} TextsAt(lines: seq<Line>, i: nat)
    requires i < |lines|
    ensures Texts(lines)[i] == lines[i].text
  {
    if i > 0 {
      TextsAt(lines[1..], i - 1);
    }
  }

  /** The text of `items` written at `depth`. */
  function Render(items: seq<MenuItem>, depth: nat): seq<string> {
    Texts(Layout(items, depth))
  }

  lemma {:induction false} CountConcat(a: string, b: string, c: char)
    ensures Count(a + b, c) == Count(a, c) + Count(b, c)
  {
    if a != [] {
      assert (a + b)[0] == a[0];
      assert (a + b)[1..] == a[1..] + b;
      CountConcat(a[1..], b, c);
    } else {
      assert a + b == b;
    }
  }

  lemma {:induction false} CountSpaces(n: nat)
    ensures Count(Spaces(n), ' ') == n
  {
    if n > 0 {
      assert Spaces(n)[1..] == Spaces(n - 1);
      CountSpaces(n - 1);
    }
  }

  /** A line holding a word after some spaces. */
  predicate WordLine(line: Line) {
    line.token != [] && Word(line.token) && line.text == Spaces(line.tabs) + line.token
  }

  /** Such a line reads back as itself: the spaces are its depth and the
      word its token. */
  lemma IndentedWord(line: Line)
    requires WordLine(line)
    ensures Analyse(line.text) == line
  {
    var text := line.text;
    var token := line.token;
    assert !IsSpace(text[|text| - 1]);
    assert RStrip(text) == text;
    CountConcat(Spaces(line.tabs), token, ' ');
    CountSpaces(line.tabs);
    assert ' ' !in token by {
      forall i | 0 <= i < |token| ensures token[i] != ' ' {
        assert !IsSpace(token[i]);
      }
    }
    var l := LStrip(text);
    assert !IsSpace(text[line.tabs]);
    assert |text| - |l| == line.tabs;
    assert l == text[line.tabs..];
  }

  /** Lines of words read back as themselves. */
  lemma AnalysedTexts(lines: seq<Line>)
    requires forall k :: 0 <= k < |lines| ==> WordLine(lines[k])
    ensures Analysed(Texts(lines)) == lines
  {
    var texts := Texts(lines);
    forall k | 0 <= k < |lines|
      ensures Analysed(texts)[k] == lines[k]
    {
      AnalysedAt(texts, k);
      TextsAt(lines, k);
      IndentedWord(lines[k]);
    }
  }

  lemma AnalysedConcat(a: seq<string>, b: seq<string>)
    ensures Analysed(a + b) == Analysed(a) + Analysed(b)
  {
    MapConcat(Analyse, a, b);
  }

  /** A command's `label|command line` is a word when both parts are. */
  lemma CommandWord(name: string, cmdline: string)
    requires Word(name) && Word(cmdline)
    ensures Word(name + "|" + cmdline)
  {
    var token := name + "|" + cmdline;
    forall i | 0 <= i < |token| ensures !IsSpace(token[i]) {
      if i < |name| {
        assert token[i] == name[i];
      } else if i > |name| {
        assert token[i] == cmdline[i - |name| - 1];
      }
    }
  }

  /** Every line of a writable menu's layout holds a word after its depth in spaces. */
  lemma {:induction false} LayoutWordLines(items: seq<MenuItem>, depth: nat)
    requires Writable(items)
    ensures forall k :: 0 <= k < |Layout(items, depth)| ==> WordLine(Layout(items, depth)[k])
    decreases items
  {
    if items != [] {
      var first := LayoutFirst(items, depth);
      var rest := Layout(items[1..], depth);
      LayoutWordLines(items[1..], depth);
      match items[0]
      case MenuSeparator =>
      case MenuCommand(name, cmdline) =>
        CommandWord(name, cmdline);
      case SubMenu(name, children) =>
        LayoutWordLines(children, depth + 1);
        assert forall k :: 1 <= k < |first| ==> first[k] == Layout(children, depth + 1)[k - 1];
      assert forall k :: |first| <= k < |first| + |rest| ==> (first + rest)[k] == rest[k - |first|];
    }
  }

  /** Writing a menu and analysing its lines gives back its layout. */
  lemma RenderAnalysed(items: seq<MenuItem>, depth: nat)
    requires Writable(items)
    ensures Analysed(Render(items, depth)) == Layout(items, depth)
  {
    LayoutWordLines(items, depth);
    AnalysedTexts(Layout(items, depth));
  }

  /** Where the parser at `depth` stops: no line left, or a line that is
      blank or shallower. */
  predicate StopsAt(lines: seq<Line>, pos: nat, depth: nat) {
    pos >= |lines| || !Deep(lines[pos], depth)
  }

  /** A slice of a run of `s` equal to `t` is the matching slice of `t`. */
  lemma Within<T>(s: seq<T>, pos: nat, t: seq<T>, i: nat, j: nat)
    requires pos + |t| <= |s| && s[pos..pos + |t|] == t && i <= j <= |t|
    ensures s[pos + i..pos + j] == t[i..j]
  {
    forall k | 0 <= k < j - i ensures s[pos + i..pos + j][k] == t[i..j][k] {
      assert s[pos + i + k] == s[pos..pos + |t|][i + k];
    }
  }

  /** The parts of a writable menu are writable. */
  lemma WritableParts(items: seq<MenuItem>)
    requires Writable(items) && items != []
    ensures Writable(items[1..])
    ensures items[0].SubMenu? ==> Writable(items[0].children)
  {
  }

  /** A laid-out menu starts with its first item's lines, on a non-blank
      line exactly `depth` deep, and goes on with the rest. */
  lemma LayoutSlices(items: seq<MenuItem>, depth: nat, lines: seq<Line>, pos: nat)
    requires Writable(items) && items != []
    requires pos + |Layout(items, depth)| <= |lines|
    requires lines[pos..pos + |Layout(items, depth)|] == Layout(items, depth)
    ensures |Layout(items, depth)| == |LayoutFirst(items, depth)| + |Layout(items[1..], depth)|
    ensures lines[pos] == LayoutFirst(items, depth)[0]
    ensures lines[pos].text != [] && lines[pos].tabs == depth
    ensures lines[pos + |LayoutFirst(items, depth)|..pos + |Layout(items, depth)|] == Layout(items[1..], depth)
  {
    var all := Layout(items, depth);
    var first := LayoutFirst(items, depth);
    assert all == first + Layout(items[1..], depth);
    assert lines[pos] == all[0];
    Within(lines, pos, all, |first|, |all|);
    assert all[|first|..] == Layout(items[1..], depth);
  }

  /** The parser reads a laid-out menu back as the items, and stops right
      after them when the following line is blank or shallower. */
  lemma {:induction false} TreeReadsLayout(items: seq<MenuItem>, depth: nat, lines: seq<Line>, pos: nat)
    requires Writable(items)
    requires pos + |Layout(items, depth)| <= |lines|
    requires lines[pos..pos + |Layout(items, depth)|] == Layout(items, depth)
    requires StopsAt(lines, pos + |Layout(items, depth)|, depth)
    ensures Tree(depth, lines, pos) == (items, pos + |Layout(items, depth)|)
    decreases items, 2
  {
    if items != [] {
      LayoutSlices(items, depth, lines, pos);
      WritableParts(items);
      ItemReadsLayout(items, depth, lines, pos);
      TreeReadsLayout(items[1..], depth, lines, pos + |LayoutFirst(items, depth)|);
      TreeStep(depth, lines, pos);
      assert [items[0]] + items[1..] == items;
    }
  }

  /** The first item of a laid-out menu reads back as itself, and reading
      goes on after its lines. */
  lemma {:induction false} ItemReadsLayout(items: seq<MenuItem>, depth: nat, lines: seq<Line>, pos: nat)
    requires Writable(items) && items != []
    requires pos + |Layout(items, depth)| <= |lines|
    requires lines[pos..pos + |Layout(items, depth)|] == Layout(items, depth)
    requires StopsAt(lines, pos + |Layout(items, depth)|, depth)
    ensures Item(lines, pos) == (items[0], pos + |LayoutFirst(items, depth)|)
    decreases items, 1
  {
    LayoutSlices(items, depth, lines, pos);
    match items[0]
    case MenuSeparator =>
    case MenuCommand(name, cmdline) =>
      var token := name + "|" + cmdline;
      assert token[|name|] == '|' && token[..|name|] == name;
      IndexOfUnique(token, '|', |name|);
      assert token[|name| + 1..] == cmdline;
    case SubMenu(name, children) =>
      ChildrenReadLayout(items, depth, lines, pos);
  }

  /** Where a laid-out sub-menu's children and the items after it stand. */
  lemma SubMenuSlices(items: seq<MenuItem>, depth: nat, lines: seq<Line>, pos: nat)
    requires items != [] && items[0].SubMenu?
    requires pos + |Layout(items, depth)| <= |lines|
    requires lines[pos..pos + |Layout(items, depth)|] == Layout(items, depth)
    ensures var below := Layout(items[0].children, depth + 1);
      && |LayoutFirst(items, depth)| == 1 + |below|
      && |Layout(items, depth)| == 1 + |below| + |Layout(items[1..], depth)|
      && lines[pos + 1..pos + 1 + |below|] == below
      && lines[pos + 1 + |below|..pos + |Layout(items, depth)|] == Layout(items[1..], depth)
  {
    var all := Layout(items, depth);
    var below := Layout(items[0].children, depth + 1);
    var rest := Layout(items[1..], depth);
    assert all == [Indented(depth, items[0].name)] + below + rest;
    Within(lines, pos, all, 1, 1 + |below|);
    assert all[1..1 + |below|] == below;
    Within(lines, pos, all, 1 + |below|, |all|);
    assert all[1 + |below|..] == rest;
  }

  /** A laid-out sub-menu's children read back as its children, one level deeper. */
  lemma {:induction false} ChildrenReadLayout(items: seq<MenuItem>, depth: nat, lines: seq<Line>, pos: nat)
    requires Writable(items) && items != [] && items[0].SubMenu?
    requires pos + |Layout(items, depth)| <= |lines|
    requires lines[pos..pos + |Layout(items, depth)|] == Layout(items, depth)
    requires StopsAt(lines, pos + |Layout(items, depth)|, depth)
    ensures Tree(depth + 1, lines, pos + 1) == (items[0].children, pos + |LayoutFirst(items, depth)|)
    decreases items, 0
  {
    var after := pos + 1 + |Layout(items[0].children, depth + 1)|;
    SubMenuSlices(items, depth, lines, pos);
    WritableParts(items);
    if items[1..] != [] {
      LayoutSlices(items[1..], depth, lines, after);
    }
    assert StopsAt(lines, after, depth + 1);
    TreeReadsLayout(items[0].children, depth + 1, lines, pos + 1);
  }

  /** The lines of a written menu and the empty line after it, analysed. */
  lemma RenderedLines(items: seq<MenuItem>)
    requires Writable(items)
    ensures Analysed(Render(items, 0) + [""]) == Layout(items, 0) + [Line("", 0, "")]
  {
    RenderAnalysed(items, 0);
    EndLine(Render(items, 0), Layout(items, 0));
  }

  /** Analysing one more, empty, line adds a blank line. */
  lemma EndLine(source: seq<string>, lines: seq<Line>)
    requires Analysed(source) == lines
    ensures Analysed(source + [""]) == lines + [Line("", 0, "")]
  {
    AnalysedConcat(source, [""]);
    assert Analysed([""]) == [Line("", 0, "")];
  }

  /** A writable menu, written out and followed by the empty line that
      ends every section's text, reads back as itself. */
  lemma ReadBack(items: seq<MenuItem>)
    requires Writable(items)
    ensures Tree(0, Analysed(Render(items, 0) + [""]), 0) == (items, |Render(items, 0)|)
  {
    var layout := Layout(items, 0);
    var lines := layout + [Line("", 0, "")];
    RenderedLines(items);
    assert lines[..|layout|] == layout;
    assert lines[|layout|].text == [];
    TreeReadsLayout(items, 0, lines, 0);
  }

  lemma NoSpaces(s: string)
    requires Word(s)
    ensures Count(s, ' ') == 0
  {
    forall i | 0 <= i < |s| ensures s[i] != ' ' {
      assert !IsSpace(s[i]);
    }
  }

  /** A text that neither starts nor ends with whitespace strips to itself. */
  lemma Unpadded(text: string)
    requires text != [] && !IsSpace(text[0]) && !IsSpace(text[|text| - 1])
    ensures RStrip(text) == text && LStrip(text) == text
  {
  }

  /** Two words joined by one space hold one space. */
  lemma CountSpaced(c: string, t: string)
    requires Word(c) && Word(t)
    ensures Count(c + " " + t, ' ') == 1
  {
    NoSpaces(c);
    NoSpaces(t);
    CountConcat(c, " " + t, ' ');
    CountConcat(" ", t, ' ');
    assert c + (" " + t) == c + " " + t;
  }

  /** Two words joined by one space read as a depth-1 line. */
  lemma SpacedLine(c: string, t: string)
    requires c != [] && t != [] && Word(c) && Word(t)
    ensures Analyse(c + " " + t) == Line(c + " " + t, 1, c + " " + t)
  {
    var text := c + " " + t;
    assert text[0] == c[0] && text[|text| - 1] == t[|t| - 1];
    Unpadded(text);
    CountSpaced(c, t);
  }

  /** A command line `c d|y` of words reads as depth 1 wherever it stands. */
  lemma SpacedCommandLine(c: string, d: string, y: string)
    requires c != [] && Word(c) && Word(d) && Word(y)
    ensures Analyse(c + " " + d + "|" + y) == Line(c + " " + d + "|" + y, 1, c + " " + d + "|" + y)
  {
    CommandWord(d, y);
    SpacedLine(c, d + "|" + y);
    assert c + " " + (d + "|" + y) == c + " " + d + "|" + y;
  }

  /** A word alone on a line reads as a depth-0 line. */
  lemma WordAlone(a: string)
    requires a != [] && Word(a)
    ensures Analyse(a) == Line(a, 0, a)
  {
    Unpadded(a);
    NoSpaces(a);
  }

  lemma Three<T>(s: seq<T>)
    requires |s| == 3
    ensures s == [s[0], s[1], s[2]]
  {
  }

  lemma AnalysedThree(source: seq<string>)
    requires |source| == 3
    ensures Analysed(source) == [Analyse(source[0]), Analyse(source[1]), Analyse(source[2])]
  {
    var lines := Analysed(source);
    Three(lines);
    assert lines[0] == Analyse(source[0]) by { AnalysedAt(source, 0); }
    assert lines[1] == Analyse(source[1]) by { AnalysedAt(source, 1); }
    assert lines[2] == Analyse(source[2]) by { AnalysedAt(source, 2); }
  }

  /** The lines of the example below. */
  lemma SpacedExampleLines(a: string, c: string, d: string, y: string)
    requires a != [] && Word(a) && c != [] && Word(c) && Word(d) && Word(y)
    ensures Analysed([a, c + " " + d + "|" + y, ""])
      == [Line(a, 0, a), Line(c + " " + d + "|" + y, 1, c + " " + d + "|" + y), Line("", 0, "")]
  {
    AnalysedThree([a, c + " " + d + "|" + y, ""]);
    WordAlone(a);
    SpacedCommandLine(c, d, y);
    assert Analyse("") == Line("", 0, "");
  }

  /** The parse of the example below. */
  lemma SpacedExampleTree(a: string, name: string, y: string)
    requires a != [] && a != "-" && '|' !in a && '|' !in name
    ensures Tree(0, [Line(a, 0, a), Line(name + "|" + y, 1, name + "|" + y), Line("", 0, "")], 0)
      == ([SubMenu(a, [MenuCommand(name, y)])], 2)
  {
    var text := name + "|" + y;
    var lines := [Line(a, 0, a), Line(text, 1, text), Line("", 0, "")];
    assert Tree(1, lines, 2) == ([], 2);
    assert text[|name|] == '|' && text[..|name|] == name && text[|name| + 1..] == y;
    IndexOfUnique(text, '|', |name|);
    assert Item(lines, 1) == (MenuCommand(name, y), 2);
    TreeStep(1, lines, 1);
    assert [MenuCommand(name, y)] + [] == [MenuCommand(name, y)];
    assert Item(lines, 0) == (SubMenu(a, [MenuCommand(name, y)]), 2);
    assert Tree(0, lines, 2) == ([], 2);
    TreeStep(0, lines, 0);
    assert [SubMenu(a, [MenuCommand(name, y)])] + [] == [SubMenu(a, [MenuCommand(name, y)])];
  }

  /** Depth counts every space of a line, so a command whose label holds a
      space, written right after a sub-menu at the outer level, is read as
      one of the sub-menu's children rather than as its sibling: the lines
      `a` and `c d|y` give one sub-menu `a` holding the command `c d`. */
  lemma InnerSpacesDeepen(a: string, c: string, d: string, y: string)
    requires a != [] && a != "-" && Word(a) && '|' !in a
    requires c != [] && Word(c) && '|' !in c && Word(d) && '|' !in d && Word(y)
    ensures Tree(0, Analysed([a, c + " " + d + "|" + y, ""]), 0)
      == ([SubMenu(a, [MenuCommand(c + " " + d, y)])], 2)
  {
    SpacedExampleLines(a, c, d, y);
    assert c + " " + d + "|" + y == (c + " " + d) + "|" + y;
    SpacedExampleTree(a, c + " " + d, y);
  }

  /** The line loop of `_loads`: lines are taken from the front one at a
      time, and text is appended to the current context's section. */
  method ScanText(lines: seq<string>) returns (r: Result<Scan, ConfigError>)
    ensures r == ScanLines(lines)
  {
    var sections: map<MenuContext, string> := map[];
    var current := MainMenu;
    var k := 0;
    while k < |lines|
      invariant 0 <= k <= |lines|
      invariant ScanLines(lines[..k]) == Success(Scan(current, sections))
    {
      var line := RStrip(lines[k]);
      assert lines[..k + 1][..k] == lines[..k];
      k := k + 1;
      if line == [] || line[0] == '#' {
        continue;
      }
      var header := HeaderName(line);
      if header.Some? {
        var context := ContextOf(header.value);
        if context.None? {
          ScanStaysFailed(lines, k);
          return Failure(ContextError(header.value));
        }
        current := context.value;
        continue;
      }
      sections := sections[current := Gathered(sections, current) + line + "\n"];
    }
    assert lines[..k] == lines;
    r := Success(Scan(current, sections));
  }

  // ----- the configuration object -----

  /** The items of `c` read from the gathered `sections`. */
  function SectionItems(sections: map<MenuContext, string>, c: MenuContext): seq<MenuItem> {
    if c in sections then
      Tree(0, Analysed(Split(sections[c], '\n')), 0).0
    else []
  }

  class MenuConfig {
    var menu: map<MenuContext, seq<MenuItem>>

    ghost predicate Valid()
      reads this
    {
      forall c :: c in menu
    }

    constructor ()
      ensures Valid() && menu == map[MainMenu := [], SubtitlesGrid := []]
    {
      var empty := map[MainMenu := [], SubtitlesGrid := []];
      forall c ensures c in empty {
        match c
        case MainMenu =>
        case SubtitlesGrid =>
      }
      menu := empty;
    }

    /** `__getitem__`: the items of a context. */
    function Get(c: MenuContext): seq<MenuItem>
      reads this
      requires Valid()
    {
      menu[c]
    }

    /** `_clear`: every context's list is emptied. */
    method Clear()
      modifies this
      ensures Valid() && menu == map[MainMenu := [], SubtitlesGrid := []]
      ensures forall c :: Get(c) == []
    {
      menu := map[MainMenu := [], SubtitlesGrid := []];
      forall c ensures c in menu && menu[c] == [] {
        match c
        case MainMenu =>
        case SubtitlesGrid =>
      }
    }

    /** Appends the items read from the text gathered for `c`. */
    method AddSection(sections: map<MenuContext, string>, c: MenuContext)
      requires Valid()
      modifies this
      ensures Valid() && menu == old(menu)[c := old(menu[c]) + SectionItems(sections, c)]
    {
      if c in sections {
        var source := Split(sections[c], '\n');
        var items, used := RecurseTree(0, Analysed(source), 0);
        menu := menu[c := menu[c] + items];
      } else {
        assert menu[c] + [] == menu[c];
      }
    }

    /** `_loads`: gathers the lines of each context, failing on the first
        header that names no context and changing nothing then; otherwise
        appends each context's items to what it already holds. */
    method Loads(text: string) returns (r: Result<(), ConfigError>)
      requires Valid()
      modifies this
      ensures Valid()
      ensures ScanLines(Split(text, '\n')).Failure? ==>
        r == Failure(ScanLines(Split(text, '\n')).error) && menu == old(menu)
      ensures ScanLines(Split(text, '\n')).Success? ==>
        var sections := ScanLines(Split(text, '\n')).value.sections;
        r.Success? && forall c :: Get(c) == old(Get(c)) + SectionItems(sections, c)
    {
      var scan := ScanText(Split(text, '\n'));
      if scan.Failure? {
        return Failure(scan.error);
      }
      ghost var before := menu;
      AddSection(scan.value.sections, MainMenu);
      ghost var between := menu;
      AddSection(scan.value.sections, SubtitlesGrid);
      forall c ensures menu[c] == before[c] + SectionItems(scan.value.sections, c) {
        match c
        case MainMenu =>
          assert menu[MainMenu] == between[MainMenu];
        case SubtitlesGrid =>
          assert between[SubtitlesGrid] == before[SubtitlesGrid];
      }
      r := Success(());
    }
  }
}
