/**
 Printing the configuration tree as VPP startup text, and a reader that inverts the printer.
 `vports` is not printed; the dictionaries under `dev` are printed as one block per device;
 the entries under `plugin` are printed on one line each.
 */
module ConfigText {
  import opened Basics
  import opened ConfigTree

  /** A line of text: its indentation and its words. */
  datatype Line = Line(indent: nat, words: seq<string>)

  const OPEN := "{"
  const CLOSE := "}"

  function LeafLine(k: string, text: string, indent: nat): Line {
    Line(indent, if text == "" then [k] else [k, text])
  }

  // ----- What is printed -----

  function Print(d: Entries, indent: nat): seq<Line>
    decreases d
  {
    match d
    case Nil => []
    case Cons(k, Leaf(text), rest) => [LeafLine(k, text, indent)] + Print(rest, indent)
    case Cons(k, Dict(sub), rest) =>
      (if k == "vports" then []
       else if k == "dev" then PrintDevices(sub, indent)
       else if k == "plugin" then PrintPlugins(sub, indent)
       else Block([k, OPEN], Print(sub, indent + 1), indent))
      + Print(rest, indent)
  }

  function Block(head: seq<string>, body: seq<Line>, indent: nat): seq<Line> {
    [Line(indent, head)] + body + [Line(indent, [CLOSE])]
  }

  function PrintDevices(d: Entries, indent: nat): seq<Line>
    decreases d
  {
    match d
    case Nil => []
    case Cons(k, Leaf(text), rest) => [LeafLine(k, text, indent)] + PrintDevices(rest, indent)
    case Cons(k, Dict(sub), rest) =>
      Block(["dev", k, OPEN], PrintDevices(sub, indent + 1), indent) + PrintDevices(rest, indent)
  }

  function PrintPlugins(d: Entries, indent: nat): seq<Line>
    decreases d
  {
    match d
    case Nil => []
    case Cons(k, v, rest) =>
      [Line(indent, ["plugin", k, OPEN, if v.Leaf? then v.text else "", CLOSE])] + PrintPlugins(rest, indent)
  }

  // ----- The reader -----

  datatype Parsed = Fail | Ok(d: Entries, rest: seq<Line>)

  predicate AtEnd(lines: seq<Line>) { lines == [] || lines[0].words == [CLOSE] }

  predicate AtDevice(lines: seq<Line>) {
    lines != [] && |lines[0].words| == 3 && lines[0].words[0] == "dev" && lines[0].words[2] == OPEN
  }

  predicate AtPlugin(lines: seq<Line>) {
    && lines != [] && |lines[0].words| == 5
    && lines[0].words[0] == "plugin" && lines[0].words[2] == OPEN && lines[0].words[4] == CLOSE
  }

  predicate AtBlock(lines: seq<Line>) { lines != [] && |lines[0].words| == 2 && lines[0].words[1] == OPEN }

  predicate AtLeaf(lines: seq<Line>) {
    lines != [] && (|lines[0].words| == 1 || (|lines[0].words| == 2 && lines[0].words[1] != OPEN))
  }

  function LeafAt(line: Line): Tree { Leaf(if |line.words| == 2 then line.words[1] else "") }

  function Prefixed(k: string, v: Tree, p: Parsed): Parsed {
    if p.Ok? then Ok(Cons(k, v, p.d), p.rest) else Fail
  }

  /** Reads a dictionary up to its closing brace or the end. */
  function Read(lines: seq<Line>): (p: Parsed)
    ensures p.Ok? ==> |p.rest| <= |lines|
    decreases |lines|, 1
  {
    if AtEnd(lines) then Ok(Nil, lines)
    else if AtLeaf(lines) then Prefixed(lines[0].words[0], LeafAt(lines[0]), Read(lines[1..]))
    else if AtBlock(lines) then
      var body := Read(lines[1..]);
      if body.Ok? && body.rest != [] then Prefixed(lines[0].words[0], Dict(body.d), Read(body.rest[1..])) else Fail
    else if AtDevice(lines) then
      var devices := ReadDevices(lines);
      if devices.Ok? && |devices.rest| < |lines| then Prefixed("dev", Dict(devices.d), Read(devices.rest)) else Fail
    else if AtPlugin(lines) then
      var plugins := ReadPlugins(lines);
      if |plugins.rest| < |lines| then Prefixed("plugin", Dict(plugins.d), Read(plugins.rest)) else Fail
    else Fail
  }

  /** Reads consecutive device blocks. */
  function ReadDevices(lines: seq<Line>): (p: Parsed)
    ensures p.Ok? ==> |p.rest| <= |lines|
    decreases |lines|, 0
  {
    if !AtDevice(lines) then Ok(Nil, lines)
    else
      var body := ReadDevice(lines[1..]);
      if body.Ok? && body.rest != [] then Prefixed(lines[0].words[1], Dict(body.d), ReadDevices(body.rest[1..]))
      else Fail
  }

  /** Reads the settings of one device. */
  function ReadDevice(lines: seq<Line>): (p: Parsed)
    ensures p.Ok? ==> |p.rest| <= |lines|
    decreases |lines|, 1
  {
    if AtEnd(lines) then Ok(Nil, lines)
    else if AtLeaf(lines) then Prefixed(lines[0].words[0], LeafAt(lines[0]), ReadDevice(lines[1..]))
    else if AtDevice(lines) then
      var body := ReadDevice(lines[1..]);
      if body.Ok? && body.rest != [] then Prefixed(lines[0].words[1], Dict(body.d), ReadDevice(body.rest[1..]))
      else Fail
    else Fail
  }

  /** Reads consecutive plugin lines. */
  function ReadPlugins(lines: seq<Line>): (p: Parsed)
    ensures p.Ok? && |p.rest| <= |lines|
    ensures AtPlugin(lines) ==> |p.rest| < |lines|
    decreases |lines|
  {
    if !AtPlugin(lines) then Ok(Nil, lines)
    else Prefixed(lines[0].words[1], Leaf(lines[0].words[3]), ReadPlugins(lines[1..]))
  }

  // ----- What can be read back -----

  /** A word: not empty, no blanks, line breaks or braces. */
  predicate IsWord(w: string) { w != "" && forall c :: c in w ==> c != ' ' && c != '\n' && c != '{' && c != '}' }

  predicate IsText(t: string) { t == "" || IsWord(t) }

  /** A tree of words, with one `dev` and one `plugin` per level and text under `plugin`. */
  predicate Printable(d: Entries)
    decreases d
  {
    match d
    case Nil => true
    case Cons(k, Leaf(text), rest) => IsWord(k) && IsText(text) && Printable(rest)
    case Cons(k, Dict(sub), rest) =>
      && IsWord(k) && Printable(rest)
      && (if k == "vports" then true
          else if k == "dev" then DevicePrintable(sub) && Get(rest, "dev") == None
          else if k == "plugin" then PluginsPrintable(sub) && Get(rest, "plugin") == None
          else Printable(sub))
  }

  predicate DevicePrintable(d: Entries)
    decreases d
  {
    match d
    case Nil => true
    case Cons(k, Leaf(text), rest) => IsWord(k) && IsText(text) && DevicePrintable(rest)
    case Cons(k, Dict(sub), rest) => IsWord(k) && DevicePrintable(sub) && DevicePrintable(rest)
  }

  predicate PluginsPrintable(d: Entries)
    decreases d
  {
    match d
    case Nil => true
    case Cons(k, v, rest) => IsWord(k) && v.Leaf? && IsText(v.text) && PluginsPrintable(rest)
  }

  /** The tree without its `vports` dictionaries. */
  function Stripped(d: Entries): Entries
    decreases d
  {
    match d
    case Nil => Nil
    case Cons(k, Dict(sub), rest) =>
      if k == "vports" then Stripped(rest)
      else if k == "dev" || k == "plugin" then Cons(k, Dict(sub), Stripped(rest))
      else Cons(k, Dict(Stripped(sub)), Stripped(rest))
    case Cons(k, v, rest) => Cons(k, v, Stripped(rest))
  }

  /** The dictionaries in front of the first text. */
  function Leading(d: Entries): Entries {
    if d.Cons? && d.val.Dict? then Cons(d.key, d.val, Leading(d.rest)) else Nil
  }

  /** From the first text on. */
  function Trailing(d: Entries): (r: Entries)
    ensures r == d || r < d
    ensures d.Cons? && d.val.Dict? ==> r < d
  {
    if d.Cons? && d.val.Dict? then Trailing(d.rest) else d
  }

  predicate OnlyDicts(d: Entries) { d == Nil || (d.val.Dict? && OnlyDicts(d.rest)) }

  /** What the text still shows of the tree: `vports` and empty `dev` and `plugin` groups are gone,
      and text directly under `dev` stands beside it and breaks the group. */
  function Shown(d: Entries): Entries
    decreases d
  {
    match d
    case Nil => Nil
    case Cons(k, Dict(sub), rest) =>
      if k == "vports" then Shown(rest)
      else if k == "dev" then ShownDevices(sub, Shown(rest))
      else if k == "plugin" then if sub == Nil then Shown(rest) else Cons(k, Dict(sub), Shown(rest))
      else Cons(k, Dict(Shown(sub)), Shown(rest))
    case Cons(k, v, rest) => Cons(k, v, Shown(rest))
  }

  function ShownDevices(d: Entries, after: Entries): Entries
    decreases d
  {
    match d
    case Nil => after
    case Cons(k, Leaf(text), rest) => Cons(k, Leaf(text), ShownDevices(rest, after))
    case Cons(_, _, _) => Cons("dev", Dict(Leading(d)), ShownDevices(Trailing(d), after))
  }

  /** Every `dev` and `plugin` group has an entry, and `dev` holds only dictionaries. */
  predicate GroupsShow(d: Entries)
    decreases d
  {
    match d
    case Nil => true
    case Cons(k, Dict(sub), rest) =>
      && GroupsShow(rest)
      && (if k == "vports" then true
          else if k == "dev" then sub != Nil && OnlyDicts(sub)
          else if k == "plugin" then sub != Nil
          else GroupsShow(sub))
    case Cons(_, _, rest) => GroupsShow(rest)
  }

  lemma {:induction false} LeadingIsAll(d: Entries)
    ensures Leading(d) == d <==> OnlyDicts(d)
    ensures OnlyDicts(d) ==> Trailing(d) == Nil
  {
    if d.Cons? && d.val.Dict? {
      LeadingIsAll(d.rest);
    }
  }

  /** No group that shows is empty. */
  lemma {:induction false} ShownIsNotEmpty(d: Entries)
    ensures Shown(d).Cons? && (Shown(d).key == "dev" || Shown(d).key == "plugin") ==> Shown(d).val != Dict(Nil)
    decreases d
  {
    if d.Cons? {
      ShownIsNotEmpty(d.rest);
    }
  }

  /** A `dev` group shows as itself exactly when it has an entry and no text. */
  lemma DevShowsIff(d: Entries, after: Entries, rest: Entries)
    requires after.Cons? && after.key == "dev" ==> after.val != Dict(Nil)
    ensures ShownDevices(d, after) == Cons("dev", Dict(d), rest) <==> d != Nil && OnlyDicts(d) && after == rest
  {
    LeadingIsAll(d);
    if d != Nil && OnlyDicts(d) {
      assert ShownDevices(d, after) == Cons("dev", Dict(d), ShownDevices(Nil, after));
    }
  }

  /** The text shows the whole tree without its `vports` exactly when every group shows. */
  lemma {:induction false} ShownIsStrippedIff(d: Entries)
    ensures Shown(d) == Stripped(d) <==> GroupsShow(d)
    decreases d
  {
    match d
    case Nil =>
    case Cons(k, Dict(sub), rest) =>
      ShownIsStrippedIff(rest);
      if k == "dev" {
        ShownIsNotEmpty(rest);
        DevShowsIff(sub, Shown(rest), Stripped(rest));
      } else if k == "plugin" {
        ShownIsNotEmpty(rest);
      } else if k != "vports" {
        ShownIsStrippedIff(sub);
      }
    case Cons(_, _, rest) => ShownIsStrippedIff(rest);
  }

  // ----- Reading inverts printing -----

  lemma WordsAreNotBraces(w: string)
    requires IsText(w)
    ensures w != OPEN && w != CLOSE
  {
    assert '{' in OPEN && '}' in CLOSE;
  }

  lemma ReadLeaf(k: string, text: string, indent: nat, rest: seq<Line>)
    requires IsWord(k) && IsText(text)
    ensures Read([LeafLine(k, text, indent)] + rest) == Prefixed(k, Leaf(text), Read(rest))
    ensures ReadDevice([LeafLine(k, text, indent)] + rest) == Prefixed(k, Leaf(text), ReadDevice(rest))
  {
    WordsAreNotBraces(k);
    WordsAreNotBraces(text);
    var lines := [LeafLine(k, text, indent)] + rest;
    assert lines[0] == LeafLine(k, text, indent) && lines[1..] == rest;
  }

  lemma BlockLines(k: string, indent: nat, body: seq<Line>, rest: seq<Line>)
    ensures var lines := Block([k, OPEN], body, indent) + rest;
            && lines != [] && lines[0] == Line(indent, [k, OPEN])
            && lines[1..] == body + ([Line(indent, [CLOSE])] + rest)
            && AtBlock(lines) && !AtLeaf(lines) && !AtEnd(lines)
  {
  }

  lemma ReadBlock(k: string, indent: nat, body: seq<Line>, b: Entries, rest: seq<Line>)
    requires Read(body + ([Line(indent, [CLOSE])] + rest)) == Ok(b, [Line(indent, [CLOSE])] + rest)
    ensures Read(Block([k, OPEN], body, indent) + rest) == Prefixed(k, Dict(b), Read(rest))
  {
    BlockLines(k, indent, body, rest);
    hide Block, ReadDevices, ReadPlugins;
    var close := Line(indent, [CLOSE]);
    assert ([close] + rest)[1..] == rest;
  }

  lemma ReadDeviceBlock(k: string, indent: nat, body: seq<Line>, b: Entries, rest: seq<Line>)
    requires ReadDevice(body + ([Line(indent, [CLOSE])] + rest)) == Ok(b, [Line(indent, [CLOSE])] + rest)
    ensures var lines := Block(["dev", k, OPEN], body, indent) + rest;
            && AtDevice(lines)
            && ReadDevice(lines) == Prefixed(k, Dict(b), ReadDevice(rest))
            && ReadDevices(lines) == Prefixed(k, Dict(b), ReadDevices(rest))
  {
    DeviceBlockLines(k, indent, body, rest);
    hide Block;
    var close := Line(indent, [CLOSE]);
    assert ([close] + rest)[1..] == rest;
  }

  lemma DeviceBlockLines(k: string, indent: nat, body: seq<Line>, rest: seq<Line>)
    ensures var lines := Block(["dev", k, OPEN], body, indent) + rest;
            && lines != [] && lines[0] == Line(indent, ["dev", k, OPEN])
            && lines[1..] == body + ([Line(indent, [CLOSE])] + rest)
            && AtDevice(lines) && !AtLeaf(lines) && !AtEnd(lines)
  {
  }

  lemma {:induction false} ReadPrintedPlugins(d: Entries, indent: nat, tail: seq<Line>)
    requires PluginsPrintable(d) && !AtPlugin(tail)
    ensures ReadPlugins(PrintPlugins(d, indent) + tail) == Ok(d, tail)
    decreases d
  {
    var lines := PrintPlugins(d, indent) + tail;
    if d == Nil {
      assert lines == tail;
    } else {
      ReadPrintedPlugins(d.rest, indent, tail);
      assert lines[1..] == PrintPlugins(d.rest, indent) + tail;
    }
  }

  lemma Assoc(a: seq<Line>, b: seq<Line>, c: seq<Line>)
    ensures a + b + c == a + (b + c)
  {
  }

  lemma {:induction false} ReadPrintedDevice(d: Entries, indent: nat, tail: seq<Line>)
    requires DevicePrintable(d) && AtEnd(tail)
    ensures ReadDevice(PrintDevices(d, indent) + tail) == Ok(d, tail)
    decreases d
  {
    match d
    case Nil =>
      assert PrintDevices(d, indent) + tail == tail;
    case Cons(k, Leaf(text), rest) =>
      hide ReadDevice, LeafLine, IsWord, IsText, AtEnd;
      ReadPrintedDevice(rest, indent, tail);
      ReadLeaf(k, text, indent, PrintDevices(rest, indent) + tail);
      Assoc([LeafLine(k, text, indent)], PrintDevices(rest, indent), tail);
    case Cons(k, Dict(sub), rest) =>
      DeviceBlockInside(k, sub, rest, indent, tail);
  }

  lemma {:induction false} DeviceBlockInside(k: string, sub: Entries, rest: Entries, indent: nat, tail: seq<Line>)
    requires DevicePrintable(sub) && DevicePrintable(rest) && AtEnd(tail)
    ensures var d := Cons(k, Dict(sub), rest);
            ReadDevice(PrintDevices(d, indent) + tail) == Ok(d, tail)
    decreases Cons(k, Dict(sub), rest), 0
  {
    hide ReadDevice, Block, DevicePrintable;
    var others := PrintDevices(rest, indent) + tail;
    ReadPrintedDevice(sub, indent + 1, [Line(indent, [CLOSE])] + others);
    ReadPrintedDevice(rest, indent, tail);
    ReadDeviceBlock(k, indent, PrintDevices(sub, indent + 1), sub, others);
    Assoc(Block(["dev", k, OPEN], PrintDevices(sub, indent + 1), indent), PrintDevices(rest, indent), tail);
  }

  lemma {:induction false} ReadPrintedDevices(d: Entries, indent: nat, tail: seq<Line>)
    requires DevicePrintable(d) && OnlyDicts(d) && !AtDevice(tail)
    ensures ReadDevices(PrintDevices(d, indent) + tail) == Ok(d, tail)
    ensures d != Nil ==> AtDevice(PrintDevices(d, indent) + tail) && PrintDevices(d, indent) != []
    decreases d
  {
    if d == Nil {
      assert PrintDevices(d, indent) + tail == tail;
    } else {
      hide ReadDevices, ReadDevice, AtDevice, IsWord, DevicePrintable;
      var sub, others := d.val.entries, PrintDevices(d.rest, indent) + tail;
      ReadPrintedDevice(sub, indent + 1, [Line(indent, [CLOSE])] + others);
      ReadPrintedDevices(d.rest, indent, tail);
      ReadDeviceBlock(d.key, indent, PrintDevices(sub, indent + 1), sub, others);
      Assoc(Block(["dev", d.key, OPEN], PrintDevices(sub, indent + 1), indent), PrintDevices(d.rest, indent), tail);
    }
  }

  lemma {:induction false} PrintLeading(d: Entries, indent: nat)
    ensures PrintDevices(d, indent) == PrintDevices(Leading(d), indent) + PrintDevices(Trailing(d), indent)
    decreases d
  {
    if d.Cons? && d.val.Dict? {
      hide Block;
      PrintLeading(d.rest, indent);
    }
  }

  lemma {:induction false} LeadingIsPrintable(d: Entries)
    requires DevicePrintable(d)
    ensures DevicePrintable(Leading(d)) && OnlyDicts(Leading(d)) && DevicePrintable(Trailing(d))
    ensures Trailing(d).Cons? ==> Trailing(d).val.Leaf?
    decreases d
  {
    if d.Cons? && d.val.Dict? {
      hide IsWord;
      LeadingIsPrintable(d.rest);
    }
  }

  /** Text is not a device. */
  lemma TextEndsGroup(d: Entries, indent: nat, tail: seq<Line>)
    requires (d.Cons? ==> d.val.Leaf?) && !AtDevice(tail)
    ensures !AtDevice(PrintDevices(d, indent) + tail)
  {
    if d == Nil {
      assert PrintDevices(d, indent) + tail == tail;
    }
  }

  /** What follows a `dev` or `plugin` group does not look like more of it. */
  lemma {:induction false} GroupsEnd(d: Entries, indent: nat, tail: seq<Line>)
    requires Printable(d) && AtEnd(tail)
    ensures Get(d, "dev") == None ==> !AtDevice(Print(d, indent) + tail)
    ensures Get(d, "plugin") == None ==> !AtPlugin(Print(d, indent) + tail)
    decreases d
  {
    var lines := Print(d, indent) + tail;
    match d
    case Nil =>
      assert lines == tail;
    case Cons(k, Leaf(text), rest) =>
      assert lines[0] == LeafLine(k, text, indent);
    case Cons(k, Dict(sub), rest) =>
      if k == "vports" {
        GroupsEnd(rest, indent, tail);
        assert Print(d, indent) == Print(rest, indent);
      } else if sub == Nil && (k == "dev" || k == "plugin") {
        GroupsEnd(rest, indent, tail);
        assert Print(d, indent) == Print(rest, indent);
      } else if k == "dev" {
        assert lines[0] == PrintDevices(sub, indent)[0];
      } else if k == "plugin" {
        assert lines[0] == PrintPlugins(sub, indent)[0];
      } else {
        assert lines[0] == Line(indent, [k, OPEN]);
      }
  }

  lemma ReadDeviceGroup(lines: seq<Line>, devices: Entries, rest: seq<Line>)
    requires AtDevice(lines) && ReadDevices(lines) == Ok(devices, rest) && |rest| < |lines|
    ensures Read(lines) == Prefixed("dev", Dict(devices), Read(rest))
  {
    hide ReadDevices;
  }

  lemma ReadPluginGroup(lines: seq<Line>, plugins: Entries, rest: seq<Line>)
    requires AtPlugin(lines) && ReadPlugins(lines) == Ok(plugins, rest) && |rest| < |lines|
    ensures Read(lines) == Prefixed("plugin", Dict(plugins), Read(rest))
  {
    hide ReadPlugins;
  }

  /** Reading printed text gives back what it shows, which is the tree without its `vports`
      exactly when every group shows. */
  lemma ReadPrinted(d: Entries, indent: nat, tail: seq<Line>)
    requires Printable(d) && AtEnd(tail)
    ensures Read(Print(d, indent) + tail) == Ok(Shown(d), tail)
    ensures Read(Print(d, indent) + tail) == Ok(Stripped(d), tail) <==> GroupsShow(d)
  {
    hide Read, Print, Printable, AtEnd;
    ReadShown(d, indent, tail);
    ShownIsStrippedIff(d);
  }

  lemma {:induction false} ReadShown(d: Entries, indent: nat, tail: seq<Line>)
    requires Printable(d) && AtEnd(tail)
    ensures Read(Print(d, indent) + tail) == Ok(Shown(d), tail)
    decreases d
  {
    match d
    case Nil =>
      assert Print(d, indent) + tail == tail;
    case Cons(k, Leaf(text), rest) =>
      hide Read, LeafLine, IsWord, IsText, AtEnd;
      ReadShown(rest, indent, tail);
      ReadLeaf(k, text, indent, Print(rest, indent) + tail);
      Assoc([LeafLine(k, text, indent)], Print(rest, indent), tail);
    case Cons(k, Dict(sub), rest) =>
      hide Read, AtEnd, IsWord, DevicePrintable, PluginsPrintable, AtDevice, AtPlugin, ShownDevices;
      ReadShown(rest, indent, tail);
      var others := Print(rest, indent) + tail;
      if k == "vports" {
        assert Print(d, indent) == Print(rest, indent);
      } else if k == "dev" {
        GroupsEnd(rest, indent, tail);
        ReadDevGroup(sub, indent, others, Shown(rest), tail);
        Assoc(PrintDevices(sub, indent), Print(rest, indent), tail);
      } else if k == "plugin" {
        GroupsEnd(rest, indent, tail);
        ReadPlugGroup(sub, indent, others);
        Assoc(PrintPlugins(sub, indent), Print(rest, indent), tail);
      } else {
        Closes(indent, others);
        ReadShown(sub, indent + 1, [Line(indent, [CLOSE])] + others);
        ReadBlock(k, indent, Print(sub, indent + 1), Shown(sub), others);
        Assoc(Block([k, OPEN], Print(sub, indent + 1), indent), Print(rest, indent), tail);
      }
  }

  lemma Closes(indent: nat, rest: seq<Line>)
    ensures AtEnd([Line(indent, [CLOSE])] + rest)
  {
  }

  /** The entries under `dev` are read as the groups and texts they show. */
  lemma {:induction false} ReadDevGroup(
    d: Entries, indent: nat, others: seq<Line>, after: Entries, tail: seq<Line>)
    requires DevicePrintable(d) && !AtDevice(others) && Read(others) == Ok(after, tail)
    ensures Read(PrintDevices(d, indent) + others) == Ok(ShownDevices(d, after), tail)
    decreases d
  {
    match d
    case Nil =>
      assert PrintDevices(d, indent) + others == others;
    case Cons(k, Leaf(text), rest) =>
      hide Read, LeafLine, IsWord, IsText, AtDevice;
      ReadDevGroup(rest, indent, others, after, tail);
      ReadLeaf(k, text, indent, PrintDevices(rest, indent) + others);
      Assoc([LeafLine(k, text, indent)], PrintDevices(rest, indent), others);
    case Cons(_, _, _) =>
      LeadingIsPrintable(d);
      PrintLeading(d, indent);
      var first, then_ := Leading(d), Trailing(d);
      assert first != Nil;
      hide Read, ReadDevices, PrintDevices, OnlyDicts, DevicePrintable, AtDevice, Leading, Trailing;
      var beyond := PrintDevices(then_, indent) + others;
      TextEndsGroup(then_, indent, others);
      ReadDevGroup(then_, indent, others, after, tail);
      ReadPrintedDevices(first, indent, beyond);
      Assoc(PrintDevices(first, indent), PrintDevices(then_, indent), others);
      ReadDeviceGroup(PrintDevices(first, indent) + beyond, first, beyond);
  }

  lemma ReadPlugGroup(d: Entries, indent: nat, others: seq<Line>)
    requires PluginsPrintable(d) && !AtPlugin(others)
    ensures Read(PrintPlugins(d, indent) + others)
         == if d == Nil then Read(others) else Prefixed("plugin", Dict(d), Read(others))
  {
    hide Read, ReadPlugins, PluginsPrintable;
    if d == Nil {
      assert PrintPlugins(d, indent) + others == others;
    } else {
      ReadPrintedPlugins(d, indent, others);
      assert (PrintPlugins(d, indent) + others)[0] == PrintPlugins(d, indent)[0];
      ReadPluginGroup(PrintPlugins(d, indent) + others, d, others);
    }
  }

  /** Text directly under `dev`, an empty `dev` or `plugin` and a `vports` dictionary leave no
      trace of their own, so no reader could tell these trees apart. */
  lemma PrintingForgets(k: string, text: string, sub: Entries, indent: nat)
    ensures Print(Cons("dev", Dict(Cons(k, Leaf(text), Nil)), Nil), indent) == Print(Cons(k, Leaf(text), Nil), indent)
    ensures Print(Cons("dev", Dict(Nil), Nil), indent) == Print(Nil, indent)
    ensures Print(Cons("plugin", Dict(Nil), Nil), indent) == Print(Nil, indent)
    ensures Print(Cons("vports", Dict(sub), Nil), indent) == Print(Nil, indent)
  {
    assert PrintDevices(Cons(k, Leaf(text), Nil), indent) == [LeafLine(k, text, indent)] + PrintDevices(Nil, indent);
  }

  // ----- Nesting -----

  predicate Opens(line: Line) { line.words != [] && line.words[|line.words| - 1] == OPEN }

  /** Every line is indented to the depth it stands at, a closing brace to the depth it returns
      to, and the depth never falls below `low`; at the end it is `out`. */
  predicate Nested(lines: seq<Line>, depth: nat, low: nat, out: nat) {
    if lines == [] then depth == out
    else if lines[0].words == [CLOSE] then
      depth > low && lines[0].indent == depth - 1 && Nested(lines[1..], depth - 1, low, out)
    else
      && lines[0].indent == depth
      && Nested(lines[1..], if Opens(lines[0]) then depth + 1 else depth, low, out)
  }

  lemma {:induction false} NestedAppend(a: seq<Line>, b: seq<Line>, depth: nat, low: nat, mid: nat, out: nat)
    requires Nested(a, depth, low, mid) && Nested(b, mid, low, out)
    ensures Nested(a + b, depth, low, out)
    decreases |a|
  {
    if a == [] {
      assert a + b == b;
    } else {
      assert (a + b)[0] == a[0] && (a + b)[1..] == a[1..] + b;
      if a[0].words == [CLOSE] {
        NestedAppend(a[1..], b, depth - 1, low, mid, out);
      } else {
        NestedAppend(a[1..], b, if Opens(a[0]) then depth + 1 else depth, low, mid, out);
      }
    }
  }

  lemma {:induction false} NestedHigher(a: seq<Line>, depth: nat, low: nat, low': nat, out: nat)
    requires Nested(a, depth, low, out) && low' <= low
    ensures Nested(a, depth, low', out)
    decreases |a|
  {
    if a != [] {
      NestedHigher(a[1..], if a[0].words == [CLOSE] then depth - 1 else if Opens(a[0]) then depth + 1 else depth,
                   low, low', out);
    }
  }

  lemma NestedBlock(head: seq<string>, body: seq<Line>, indent: nat)
    requires head != [] && head[|head| - 1] == OPEN && Nested(body, indent + 1, indent + 1, indent + 1)
    ensures Nested(Block(head, body, indent), indent, indent, indent)
  {
    var first, last := [Line(indent, head)], [Line(indent, [CLOSE])];
    NestedHigher(body, indent + 1, indent + 1, indent, indent + 1);
    assert first[1..] == [] && last[1..] == [];
    NestedAppend(first, body, indent, indent, indent + 1, indent + 1);
    NestedAppend(first + body, last, indent, indent, indent + 1, indent);
  }

  lemma NestedLine(line: Line)
    requires !Opens(line) && line.words != [CLOSE]
    ensures Nested([line], line.indent, line.indent, line.indent)
  {
    assert [line][1..] == [];
  }

  lemma NestedLeaf(k: string, text: string, indent: nat)
    requires IsWord(k) && IsText(text)
    ensures Nested([LeafLine(k, text, indent)], indent, indent, indent)
  {
    WordsAreNotBraces(k);
    WordsAreNotBraces(text);
    NestedLine(LeafLine(k, text, indent));
  }

  lemma {:induction false} DevicesAreNested(d: Entries, indent: nat)
    requires DevicePrintable(d)
    ensures Nested(PrintDevices(d, indent), indent, indent, indent)
    decreases d
  {
    match d
    case Nil =>
    case Cons(k, Leaf(text), rest) =>
      NestedLeaf(k, text, indent);
      DevicesAreNested(rest, indent);
      NestedAppend([LeafLine(k, text, indent)], PrintDevices(rest, indent), indent, indent, indent, indent);
    case Cons(k, Dict(sub), rest) =>
      DevicesAreNested(sub, indent + 1);
      NestedBlock(["dev", k, OPEN], PrintDevices(sub, indent + 1), indent);
      DevicesAreNested(rest, indent);
      NestedAppend(Block(["dev", k, OPEN], PrintDevices(sub, indent + 1), indent), PrintDevices(rest, indent),
                   indent, indent, indent, indent);
  }

  lemma {:induction false} PluginsAreNested(d: Entries, indent: nat)
    requires PluginsPrintable(d)
    ensures Nested(PrintPlugins(d, indent), indent, indent, indent)
    decreases d
  {
    if d.Cons? {
      var line := Line(indent, ["plugin", d.key, OPEN, d.val.text, CLOSE]);
      NestedLine(line);
      PluginsAreNested(d.rest, indent);
      NestedAppend([line], PrintPlugins(d.rest, indent), indent, indent, indent, indent);
    }
  }

  /** In printed text every line is indented to its nesting depth, the depth never falls below
      where it started, and it ends where it started. */
  lemma {:induction false} PrintedIsNested(d: Entries, indent: nat)
    requires Printable(d)
    ensures Nested(Print(d, indent), indent, indent, indent)
    decreases d
  {
    match d
    case Nil =>
    case Cons(k, Leaf(text), rest) =>
      NestedLeaf(k, text, indent);
      PrintedIsNested(rest, indent);
      NestedAppend([LeafLine(k, text, indent)], Print(rest, indent), indent, indent, indent, indent);
    case Cons(k, Dict(sub), rest) =>
      PrintedIsNested(rest, indent);
      if k == "vports" {
        assert Print(d, indent) == Print(rest, indent);
      } else if k == "dev" {
        DevicesAreNested(sub, indent);
        NestedAppend(PrintDevices(sub, indent), Print(rest, indent), indent, indent, indent, indent);
      } else if k == "plugin" {
        PluginsAreNested(sub, indent);
        NestedAppend(PrintPlugins(sub, indent), Print(rest, indent), indent, indent, indent, indent);
      } else {
        PrintedIsNested(sub, indent + 1);
        NestedBlock([k, OPEN], Print(sub, indent + 1), indent);
        NestedAppend(Block([k, OPEN], Print(sub, indent + 1), indent), Print(rest, indent),
                     indent, indent, indent, indent);
      }
  }
}
