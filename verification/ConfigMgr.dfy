/**
 The characters of the startup file: the printing methods of ConfigMgr, which append to one
 string, and the split of text into lines and words that the reader starts from.
 */
module ConfigMgr {
  import opened ConfigTree
  import opened ConfigText

  const INDENT := "    "

  function Indentation(n: nat): string { if n == 0 then "" else Indentation(n - 1) + INDENT }

  function Join(words: seq<string>): string {
    if words == [] then "" else if |words| == 1 then words[0] else words[0] + " " + Join(words[1..])
  }

  function LineText(line: Line): string { Indentation(line.indent) + Join(line.words) + "\n" }

  function Text(lines: seq<Line>): string { if lines == [] then "" else LineText(lines[0]) + Text(lines[1..]) }

  // ----- Splitting text -----

  /** The position of the first `c`, or the length. */
  function Find(s: string, c: char): (i: nat)
    ensures i <= |s| && c !in s[..i] && (i < |s| ==> s[i] == c)
  {
    if s == "" || s[0] == c then 0
    else
      assert s[..1 + Find(s[1..], c)] == [s[0]] + s[1..][..Find(s[1..], c)];
      1 + Find(s[1..], c)
  }

  function Words(s: string): seq<string>
    decreases |s|
  {
    var i := Find(s, ' ');
    if i == |s| then [s] else [s[..i]] + Words(s[i + 1..])
  }

  function Blanks(s: string): nat { if s == "" || s[0] != ' ' then 0 else 1 + Blanks(s[1..]) }

  lemma {:induction false} BlanksFit(s: string)
    ensures Blanks(s) <= |s|
  {
    if s != "" && s[0] == ' ' {
      BlanksFit(s[1..]);
    }
  }

  function LineOf(s: string): Line {
    BlanksFit(s);
    Line(Blanks(s) / |INDENT|, Words(s[Blanks(s)..]))
  }

  function Lines(text: string): seq<Line>
    decreases |text|
  {
    var i := Find(text, '\n');
    if text == "" then [] else if i == |text| then [LineOf(text)] else [LineOf(text[..i])] + Lines(text[i + 1..])
  }

  // ----- Splitting inverts joining -----

  predicate IsPlain(w: string) { ' ' !in w && '\n' !in w }

  /** Only the first word may not be empty: a plugin without text leaves an empty fourth word. */
  predicate IsPlainLine(line: Line) {
    line.words != [] && line.words[0] != "" && forall w :: w in line.words ==> IsPlain(w)
  }

  lemma {:induction false} FindAfter(a: string, c: char, b: string)
    requires c !in a
    ensures Find(a + [c] + b, c) == |a|
    decreases |a|
  {
    var s := a + [c] + b;
    if a == "" {
      assert s[0] == c;
    } else {
      assert s[0] == a[0] && a[0] in a && s[1..] == a[1..] + [c] + b;
      FindAfter(a[1..], c, b);
    }
  }

  lemma {:induction false} FindNone(s: string, c: char)
    requires c !in s
    ensures Find(s, c) == |s|
    decreases |s|
  {
    if s != "" {
      assert s[0] in s;
      FindNone(s[1..], c);
    }
  }

  lemma {:induction false} WordsOfJoin(words: seq<string>)
    requires words != [] && forall w :: w in words ==> IsPlain(w)
    ensures Words(Join(words)) == words
    decreases |words|
  {
    var w := words[0];
    assert IsPlain(w);
    hide Find;
    if |words| == 1 {
      FindNone(w, ' ');
    } else {
      WordsOfJoin(words[1..]);
      FindAfter(w, ' ', Join(words[1..]));
      SplitAt(w, ' ', Join(words[1..]));
    }
  }

  lemma {:induction false} JoinIsOneLine(words: seq<string>)
    requires words != [] && forall w :: w in words ==> IsPlain(w)
    ensures '\n' !in Join(words)
    ensures words[0] != "" ==> Join(words) != "" && Join(words)[0] != ' '
    decreases |words|
  {
    var w := words[0];
    assert IsPlain(w) && (w != "" ==> w[0] in w);
    if |words| > 1 {
      JoinIsOneLine(words[1..]);
    }
  }

  lemma SplitAt(a: string, c: char, b: string)
    ensures var s := a + [c] + b; s[..|a|] == a && s[|a| + 1..] == b
  {
  }

  lemma {:induction false} IndentationIsBlank(n: nat)
    ensures |Indentation(n)| == 4 * n
    ensures forall k :: 0 <= k < |Indentation(n)| ==> Indentation(n)[k] == ' '
  {
    if n > 0 {
      IndentationIsBlank(n - 1);
    }
  }

  lemma {:induction false} BlanksBefore(a: string, s: string)
    requires s != "" && s[0] != ' ' && forall k :: 0 <= k < |a| ==> a[k] == ' '
    ensures Blanks(a + s) == |a|
    decreases |a|
  {
    if a == "" {
      assert a + s == s;
    } else {
      assert (a + s)[1..] == a[1..] + s;
      BlanksBefore(a[1..], s);
    }
  }

  lemma LineOfText(line: Line)
    requires IsPlainLine(line)
    ensures LineOf(Indentation(line.indent) + Join(line.words)) == line
    ensures '\n' !in Indentation(line.indent) + Join(line.words)
  {
    WordsOfJoin(line.words);
    JoinIsOneLine(line.words);
    var a, s := Indentation(line.indent), Join(line.words);
    IndentationIsBlank(line.indent);
    BlanksBefore(a, s);
    assert (a + s)[|a|..] == s;
  }

  /** The first line of a text ends at its first line break. */
  lemma FirstLine(first: string, rest: string)
    requires '\n' !in first
    ensures Lines(first + "\n" + rest) == [LineOf(first)] + Lines(rest)
  {
    hide LineOf;
    var text := first + "\n" + rest;
    assert Find(text, '\n') == |first| by { FindAfter(first, '\n', rest); }
    hide Find;
    SplitAt(first, '\n', rest);
  }

  lemma {:induction false} LinesOfText(lines: seq<Line>)
    requires forall k :: 0 <= k < |lines| ==> IsPlainLine(lines[k])
    ensures Lines(Text(lines)) == lines
    decreases |lines|
  {
    if lines != [] {
      hide LineOf, Find, Indentation, Join, IsPlainLine, Lines;
      var first, rest := Indentation(lines[0].indent) + Join(lines[0].words), Text(lines[1..]);
      LineOfText(lines[0]);
      LinesOfText(lines[1..]);
      FirstLine(first, rest);
      assert Text(lines) == first + "\n" + rest;
    } else {
      assert Text(lines) == "" && Lines("") == [];
    }
  }

  // ----- What is printed is plain -----

  ghost predicate AllPlain(lines: seq<Line>) { forall k :: 0 <= k < |lines| ==> IsPlainLine(lines[k]) }

  lemma WordsArePlain(w: string)
    requires IsText(w)
    ensures IsPlain(w)
  {
  }

  lemma FixedWordsArePlain()
    ensures IsPlain("dev") && IsPlain("plugin") && IsPlain(OPEN) && IsPlain(CLOSE)
  {
    assert OPEN == ['{'] && CLOSE == ['}'];
    assert "dev" == ['d', 'e', 'v'] && "plugin" == ['p', 'l', 'u', 'g', 'i', 'n'];
  }

  lemma LeafIsPlain(k: string, text: string, indent: nat)
    requires IsWord(k) && IsText(text)
    ensures IsPlainLine(LeafLine(k, text, indent))
  {
    WordsArePlain(k);
    WordsArePlain(text);
  }

  lemma BlockIsPlain(head: seq<string>, body: seq<Line>, indent: nat)
    requires IsPlainLine(Line(indent, head)) && AllPlain(body)
    ensures AllPlain(Block(head, body, indent))
  {
    FixedWordsArePlain();
    hide IsPlain;
    assert IsPlainLine(Line(indent, [CLOSE]));
  }

  lemma {:induction false} PluginsArePlain(d: Entries, indent: nat)
    requires PluginsPrintable(d)
    ensures AllPlain(PrintPlugins(d, indent))
    decreases d
  {
    if d.Cons? {
      FixedWordsArePlain();
      WordsArePlain(d.key);
      WordsArePlain(d.val.text);
      PluginsArePlain(d.rest, indent);
      hide IsPlain, IsWord, IsText;
      assert IsPlainLine(Line(indent, ["plugin", d.key, OPEN, d.val.text, CLOSE]));
    }
  }

  lemma {:induction false} DevicesArePlain(d: Entries, indent: nat)
    requires DevicePrintable(d)
    ensures AllPlain(PrintDevices(d, indent))
    decreases d
  {
    hide IsPlainLine, IsWord, IsText, IsPlain;
    match d
    case Nil =>
    case Cons(k, Leaf(text), rest) =>
      LeafIsPlain(k, text, indent);
      DevicesArePlain(rest, indent);
    case Cons(k, Dict(sub), rest) =>
      DeviceHeadIsPlain(k, indent);
      DevicesArePlain(sub, indent + 1);
      BlockIsPlain(["dev", k, OPEN], PrintDevices(sub, indent + 1), indent);
      DevicesArePlain(rest, indent);
  }

  lemma DeviceHeadIsPlain(k: string, indent: nat)
    requires IsWord(k)
    ensures IsPlainLine(Line(indent, ["dev", k, OPEN])) && IsPlainLine(Line(indent, [k, OPEN]))
  {
    FixedWordsArePlain();
    WordsArePlain(k);
    hide IsPlain, IsWord;
  }

  lemma {:induction false} PrintedIsPlain(d: Entries, indent: nat)
    requires Printable(d)
    ensures AllPlain(Print(d, indent))
    decreases d
  {
    hide IsPlainLine, IsWord, IsText, IsPlain, PrintDevices, PrintPlugins, Block;
    match d
    case Nil =>
    case Cons(k, Leaf(text), rest) =>
      LeafIsPlain(k, text, indent);
      PrintedIsPlain(rest, indent);
    case Cons(k, Dict(sub), rest) =>
      PrintedIsPlain(rest, indent);
      if k == "vports" {
      } else if k == "dev" {
        DevicesArePlain(sub, indent);
      } else if k == "plugin" {
        PluginsArePlain(sub, indent);
      } else {
        DeviceHeadIsPlain(k, indent);
        PrintedIsPlain(sub, indent + 1);
        BlockIsPlain([k, OPEN], Print(sub, indent + 1), indent);
      }
  }

  /** A reader of the startup text recovers what it shows, which is the configuration without its
      `vports` exactly when every group shows. */
  lemma TextRoundTrip(d: Entries)
    requires Printable(d)
    ensures var text := Text(Print(d, 0));
            && Read(Lines(text)) == Ok(Shown(d), [])
            && (Read(Lines(text)) == Ok(Stripped(d), []) <==> GroupsShow(d))
  {
    hide Read, Print, Printable, Shown, Stripped, GroupsShow, Text, Lines;
    PrintedIsPlain(d, 0);
    LinesOfText(Print(d, 0));
    ReadPrinted(d, 0, []);
    assert Print(d, 0) + [] == Print(d, 0);
  }

  // ----- A sample -----

  /** A small configuration with text, an empty text, a device, a plugin and virtual ports. */
  function Sample(): Entries {
    Cons("u", Dict(Cons("n", Leaf(""), Cons("g", Leaf("v"), Nil))),
         Cons("p", Dict(Cons("dev", Dict(Cons("d", Dict(Cons("q", Leaf("1"), Nil)), Nil)), Nil)),
              Cons("s", Dict(Cons("plugin", Dict(Cons("d", Leaf("on"), Nil)), Nil)),
                   Cons("vports", Dict(Cons("e", Leaf(""), Nil)), Nil))))
  }

  function SampleLines(): seq<Line> {
    var leaves := [Line(1, ["n"]), Line(1, ["g", "v"])];
    var devices := [Line(1, ["dev", "d", "{"]), Line(2, ["q", "1"]), Line(1, ["}"])];
    var plugins := [Line(1, ["plugin", "d", "{", "on", "}"])];
    [Line(0, ["u", "{"])] + leaves + [Line(0, ["}"])]
    + ([Line(0, ["p", "{"])] + devices + [Line(0, ["}"])]
       + ([Line(0, ["s", "{"])] + plugins + [Line(0, ["}"])]))
  }

  lemma SampleLeaves(indent: nat)
    ensures Print(Cons("n", Leaf(""), Cons("g", Leaf("v"), Nil)), indent)
         == [Line(indent, ["n"]), Line(indent, ["g", "v"])]
  {
    assert Print(Cons("g", Leaf("v"), Nil), indent) == [Line(indent, ["g", "v"])] + Print(Nil, indent);
  }

  lemma SampleDevice(indent: nat)
    ensures Print(Cons("dev", Dict(Cons("d", Dict(Cons("q", Leaf("1"), Nil)), Nil)), Nil), indent)
         == [Line(indent, ["dev", "d", "{"]), Line(indent + 1, ["q", "1"]), Line(indent, ["}"])]
  {
    var setting := Cons("q", Leaf("1"), Nil);
    assert PrintDevices(setting, indent + 1) == [Line(indent + 1, ["q", "1"])] + PrintDevices(Nil, indent + 1);
    var device := Cons("d", Dict(setting), Nil);
    assert PrintDevices(device, indent)
        == Block(["dev", "d", "{"], PrintDevices(setting, indent + 1), indent) + PrintDevices(Nil, indent);
    assert Print(Cons("dev", Dict(device), Nil), indent) == PrintDevices(device, indent) + Print(Nil, indent);
  }

  lemma SamplePlugin(indent: nat)
    ensures Print(Cons("plugin", Dict(Cons("d", Leaf("on"), Nil)), Nil), indent)
         == [Line(indent, ["plugin", "d", "{", "on", "}"])]
  {
    var plugins := Cons("d", Leaf("on"), Nil);
    assert PrintPlugins(plugins, indent)
        == [Line(indent, ["plugin", "d", "{", "on", "}"])] + PrintPlugins(Nil, indent);
    assert Print(Cons("plugin", Dict(plugins), Nil), indent) == PrintPlugins(plugins, indent) + Print(Nil, indent);
  }

  lemma PrintBlock(k: string, sub: Entries, rest: Entries, body: seq<Line>)
    requires k != "vports" && k != "dev" && k != "plugin" && Print(sub, 1) == body
    ensures Print(Cons(k, Dict(sub), rest), 0) == [Line(0, [k, "{"])] + body + [Line(0, ["}"])] + Print(rest, 0)
  {
  }

  /** The lines of the sample: one block per dictionary, one per device, one line per plugin, no
      virtual ports. */
  lemma SampleIsPrinted()
    ensures Print(Sample(), 0) == SampleLines()
  {
    SampleLeaves(1);
    SampleDevice(1);
    SamplePlugin(1);
    var ports := Sample().rest.rest.rest;
    assert Print(ports, 0) == [] + Print(Nil, 0);
    hide Print;
    var end := [Line(0, ["s", "{"])] + [Line(1, ["plugin", "d", "{", "on", "}"])] + [Line(0, ["}"])];
    PrintBlock("s", Sample().rest.rest.val.entries, ports, [Line(1, ["plugin", "d", "{", "on", "}"])]);
    assert end + [] == end;
    PrintBlock("p", Sample().rest.val.entries, Sample().rest.rest,
               [Line(1, ["dev", "d", "{"]), Line(2, ["q", "1"]), Line(1, ["}"])]);
    PrintBlock("u", Sample().val.entries, Sample().rest, [Line(1, ["n"]), Line(1, ["g", "v"])]);
  }

  /** The sample reads back, so the round trip is not about nothing. */
  lemma SampleReadsBack()
    ensures Printable(Sample()) && GroupsShow(Sample())
    ensures Read(Lines(Text(SampleLines()))) == Ok(Stripped(Sample()), [])
  {
    SampleIsPrintable();
    SampleIsPrinted();
    hide Read, Lines, Text, Print, Stripped, Sample, SampleLines, Printable, GroupsShow;
    TextRoundTrip(Sample());
  }

  lemma SampleWords()
    ensures IsWord("u") && IsWord("n") && IsWord("g") && IsWord("v") && IsWord("p") && IsWord("d") && IsWord("q")
    ensures IsWord("1") && IsWord("s") && IsWord("on") && IsWord("e")
    ensures IsWord("dev") && IsWord("plugin") && IsWord("vports")
  {
  }

  lemma SampleIsPrintable()
    ensures Printable(Sample()) && GroupsShow(Sample())
  {
    SampleWords();
    hide IsWord;
    var leaves, devices, plugins, ports := Sample(), Sample().rest, Sample().rest.rest, Sample().rest.rest.rest;
    assert Printable(ports) && GroupsShow(ports);
    assert PluginsPrintable(plugins.val.entries.val.entries);
    assert Printable(plugins.val.entries) && GroupsShow(plugins.val.entries);
    assert Printable(plugins) && GroupsShow(plugins);
    assert DevicePrintable(devices.val.entries.val.entries.val.entries);
    assert DevicePrintable(devices.val.entries.val.entries) && OnlyDicts(devices.val.entries.val.entries);
    assert Printable(devices.val.entries) && GroupsShow(devices.val.entries);
    assert Printable(devices) && GroupsShow(devices);
    assert Printable(leaves.val.entries.rest) && GroupsShow(leaves.val.entries.rest);
    assert Printable(leaves.val.entries) && GroupsShow(leaves.val.entries);
  }

  // ----- The printing methods -----

  /** Directly under `plugin` there is only text; anything else raises a TypeError. */
  predicate Renderable(d: Entries)
    decreases d
  {
    match d
    case Nil => true
    case Cons(k, Leaf(_), rest) => Renderable(rest)
    case Cons(k, Dict(sub), rest) =>
      && Renderable(rest)
      && (if k == "vports" || k == "dev" then true else if k == "plugin" then OnlyText(sub) else Renderable(sub))
  }

  predicate OnlyText(d: Entries) { d == Nil || (d.val.Leaf? && OnlyText(d.rest)) }

  lemma {:induction false} TextAppend(a: seq<Line>, b: seq<Line>)
    ensures Text(a + b) == Text(a) + Text(b)
    decreases |a|
  {
    if a == [] {
      assert a + b == b;
    } else {
      assert (a + b)[1..] == a[1..] + b;
      TextAppend(a[1..], b);
    }
  }

  lemma TextOfBlock(head: seq<string>, body: seq<Line>, indent: nat)
    ensures Text(Block(head, body, indent))
         == LineText(Line(indent, head)) + Text(body) + LineText(Line(indent, [CLOSE]))
  {
    var first, last := [Line(indent, head)], [Line(indent, [CLOSE])];
    assert first[1..] == [] && last[1..] == [];
    TextAppend(first + body, last);
    TextAppend(first, body);
  }

  lemma TextOfLine(line: Line)
    ensures Text([line]) == LineText(line)
  {
    assert [line][1..] == [];
  }

  lemma OneMoreLine(conf: string, done: seq<Line>, line: Line)
    ensures conf + Text(done) + LineText(line) == conf + Text(done + [line])
  {
    TextAppend(done, [line]);
    TextOfLine(line);
  }

  lemma MoreLines(conf: string, done: seq<Line>, lines: seq<Line>)
    ensures conf + Text(done) + Text(lines) == conf + Text(done + lines)
  {
    TextAppend(done, lines);
  }

  class Manager {
    var startupConf: string

    /** `indoff` is the indentation of this level. */
    method GenPluginsCfg(cfg: Entries, indoff: string, ghost indent: nat)
      requires OnlyText(cfg) && indoff == Indentation(indent)
      modifies this
      ensures startupConf == old(startupConf) + Text(PrintPlugins(cfg, indent))
    {
      hide Text, LineText, Indentation;
      var todo := cfg;
      ghost var done: seq<Line> := [];
      NoLines(startupConf);
      while todo.Cons?
        invariant OnlyText(todo) && done + PrintPlugins(todo, indent) == PrintPlugins(cfg, indent)
        invariant startupConf == old(startupConf) + Text(done)
        decreases todo
      {
        ghost var line := Line(indent, ["plugin", todo.key, OPEN, todo.val.text, CLOSE]);
        GenPlugin(todo.key, todo.val.text, indoff, indent);
        OneMoreLine(old(startupConf), done, line);
        Regroup(done, [line], PrintPlugins(todo.rest, indent));
        done := done + [line];
        todo := todo.rest;
      }
      assert done + [] == done;
    }

    /** Prints the line of one plugin. */
    method GenPlugin(k: string, text: string, indoff: string, ghost indent: nat)
      requires indoff == Indentation(indent)
      modifies this
      ensures startupConf == old(startupConf) + LineText(Line(indent, ["plugin", k, OPEN, text, CLOSE]))
    {
      hide LineText, Indentation;
      PluginLine(k, text, indent);
      startupConf := startupConf + (indoff + "plugin " + k + " " + "{ " + text + " }" + "\n");
    }

    /** Prints a leaf, at any level. */
    method GenLeaf(k: string, text: string, indoff: string, ghost indent: nat)
      requires indoff == Indentation(indent)
      modifies this
      ensures startupConf == old(startupConf) + LineText(LeafLine(k, text, indent))
    {
      LeafText(k, text, indent);
      if text != "" {
        startupConf := startupConf + (indoff + k + " " + text + "\n");
      } else {
        startupConf := startupConf + (indoff + k + "\n");
      }
    }

    method GenDpdkDevCfg(cfg: Entries, indoff: string, ghost indent: nat)
      requires indoff == Indentation(indent)
      modifies this
      ensures startupConf == old(startupConf) + Text(PrintDevices(cfg, indent))
      decreases cfg, 1
    {
      hide Text, LineText, Indentation, LeafLine, Block;
      var todo := cfg;
      ghost var done: seq<Line> := [];
      NoLines(startupConf);
      while todo.Cons?
        invariant todo == cfg || todo < cfg
        invariant done + PrintDevices(todo, indent) == PrintDevices(cfg, indent)
        invariant startupConf == old(startupConf) + Text(done)
        decreases todo
      {
        ghost var lines: seq<Line>;
        match todo.val {
          case Leaf(text) =>
            GenLeaf(todo.key, text, indoff, indent);
            lines := [LeafLine(todo.key, text, indent)];
            TextOfLine(LeafLine(todo.key, text, indent));
          case Dict(sub) =>
            GenDevice(todo.key, sub, indoff, indent);
            lines := Block(["dev", todo.key, OPEN], PrintDevices(sub, indent + 1), indent);
        }
        MoreLines(old(startupConf), done, lines);
        Regroup(done, lines, PrintDevices(todo.rest, indent));
        done := done + lines;
        todo := todo.rest;
      }
      assert done + [] == done;
    }

    /** Prints one device and what is below it. */
    method GenDevice(k: string, sub: Entries, indoff: string, ghost indent: nat)
      requires indoff == Indentation(indent)
      modifies this
      ensures startupConf == old(startupConf) + Text(Block(["dev", k, OPEN], PrintDevices(sub, indent + 1), indent))
      decreases sub, 2
    {
      hide Text, LineText, Indentation, Block, PrintDevices;
      startupConf := startupConf + (indoff + "dev " + k + " " + "{" + "\n");
      Deeper(indent);
      GenDpdkDevCfg(sub, indoff + INDENT, indent + 1);
      startupConf := startupConf + (indoff + "}" + "\n");
      HeadText(k, indent);
      BlockText(old(startupConf), ["dev", k, OPEN], PrintDevices(sub, indent + 1), indent);
    }

    /** Appends a dictionary to the startup text. */
    method GenVppConf(cfg: Entries, indoff: string, ghost indent: nat)
      requires Renderable(cfg) && indoff == Indentation(indent)
      modifies this
      ensures startupConf == old(startupConf) + Text(Print(cfg, indent))
      decreases cfg
    {
      hide Text, LineText, Indentation, LeafLine, Block, PrintDevices, PrintPlugins, OnlyText;
      var todo := cfg;
      ghost var done: seq<Line> := [];
      NoLines(startupConf);
      while todo.Cons?
        invariant todo == cfg || todo < cfg
        invariant Renderable(todo) && done + Print(todo, indent) == Print(cfg, indent)
        invariant startupConf == old(startupConf) + Text(done)
        decreases todo
      {
        var k := todo.key;
        ghost var before := startupConf;
        ghost var lines: seq<Line>;
        match todo.val {
          case Leaf(text) =>
            GenLeaf(k, text, indoff, indent);
            lines := [LeafLine(k, text, indent)];
            TextOfLine(LeafLine(k, text, indent));
          case Dict(sub) =>
            if k == "vports" {
              lines := [];
              NoLines(startupConf);
            } else if k == "dev" {
              GenDpdkDevCfg(sub, indoff, indent);
              lines := PrintDevices(sub, indent);
            } else if k == "plugin" {
              GenPluginsCfg(sub, indoff, indent);
              lines := PrintPlugins(sub, indent);
            } else {
              startupConf := startupConf + (indoff + k + " " + "{" + "\n");
              Deeper(indent);
              GenVppConf(sub, indoff + INDENT, indent + 1);
              startupConf := startupConf + (indoff + "}" + "\n");
              HeadText(k, indent);
              BlockText(before, [k, OPEN], Print(sub, indent + 1), indent);
              lines := Block([k, OPEN], Print(sub, indent + 1), indent);
            }
        }
        assert startupConf == before + Text(lines);
        MoreLines(old(startupConf), done, lines);
        Regroup(done, lines, Print(todo.rest, indent));
        done := done + lines;
        todo := todo.rest;
      }
      assert done + [] == done;
    }

    /** Renders the whole configuration; a reader of the result recovers it. */
    method RenderVppConfig(cfg: Entries)
      requires Renderable(cfg)
      modifies this
      ensures startupConf == Text(Print(cfg, 0))
      ensures Printable(cfg) ==>
                && Read(Lines(startupConf)) == Ok(Shown(cfg), [])
                && (Read(Lines(startupConf)) == Ok(Stripped(cfg), []) <==> GroupsShow(cfg))
    {
      startupConf := "";
      GenVppConf(cfg, "", 0);
      if Printable(cfg) {
        TextRoundTrip(cfg);
      }
    }
  }

  lemma NoLines(conf: string)
    ensures conf == conf + Text([])
  {
  }

  lemma Regroup(a: seq<Line>, b: seq<Line>, c: seq<Line>)
    ensures a + (b + c) == a + b + c
  {
  }

  lemma Deeper(indent: nat)
    ensures Indentation(indent) + INDENT == Indentation(indent + 1)
  {
  }

  lemma LeafText(k: string, text: string, indent: nat)
    ensures LineText(LeafLine(k, text, indent))
         == if text != "" then Indentation(indent) + k + " " + text + "\n" else Indentation(indent) + k + "\n"
  {
    assert [k, text][1..] == [text];
    assert Join([k, text]) == k + " " + text;
    if text != "" {
      assert Indentation(indent) + (k + " " + text) + "\n" == Indentation(indent) + k + " " + text + "\n";
    }
  }

  lemma HeadText(k: string, indent: nat)
    ensures LineText(Line(indent, ["dev", k, OPEN])) == Indentation(indent) + "dev " + k + " " + "{" + "\n"
    ensures LineText(Line(indent, [k, OPEN])) == Indentation(indent) + k + " " + "{" + "\n"
    ensures LineText(Line(indent, [CLOSE])) == Indentation(indent) + "}" + "\n"
  {
    assert [k, OPEN][1..] == [OPEN] && ["dev", k, OPEN][1..] == [k, OPEN];
    assert Join([k, OPEN]) == k + " " + OPEN;
    assert Join(["dev", k, OPEN]) == "dev" + " " + (k + " " + OPEN);
    assert Indentation(indent) + ("dev" + " " + (k + " " + OPEN)) + "\n"
        == Indentation(indent) + "dev " + k + " " + "{" + "\n";
    assert Indentation(indent) + (k + " " + OPEN) + "\n" == Indentation(indent) + k + " " + "{" + "\n";
  }

  lemma BlockText(conf: string, head: seq<string>, body: seq<Line>, indent: nat)
    ensures conf + LineText(Line(indent, head)) + Text(body) + LineText(Line(indent, [CLOSE]))
         == conf + Text(Block(head, body, indent))
  {
    TextOfBlock(head, body, indent);
  }

  lemma PluginLine(k: string, text: string, indent: nat)
    ensures LineText(Line(indent, ["plugin", k, OPEN, text, CLOSE]))
         == Indentation(indent) + "plugin " + k + " " + "{ " + text + " }" + "\n"
  {
    var words := ["plugin", k, OPEN, text, CLOSE];
    assert words[1..] == [k, OPEN, text, CLOSE] && words[1..][1..] == [OPEN, text, CLOSE];
    assert words[1..][1..][1..] == [text, CLOSE] && words[1..][1..][1..][1..] == [CLOSE];
    assert Join([text, CLOSE]) == text + " " + CLOSE;
    assert Join([OPEN, text, CLOSE]) == OPEN + " " + Join([text, CLOSE]);
    assert Join([k, OPEN, text, CLOSE]) == k + " " + Join([OPEN, text, CLOSE]);
    assert Join(words) == "plugin" + " " + Join([k, OPEN, text, CLOSE]);
  }
}
