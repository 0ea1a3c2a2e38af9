/**
 * The pure half of `LogUtils`: log kinds and their flags, tag and head
 * resolution, body rendering, the left-border frame, the 4000-character
 * console chunks, and the per-day file name and file block.
 */
module LogFormat {
  import opened Optional
  import opened JavaLang
  import opened JavaSplit

  // ===========================================================================
  // Constants
  // ===========================================================================

  /** `LINE_SEP` and `FILE_SEP`, the values Android gives these system properties. */
  const LINE_SEP: char := '\n'
  const FILE_SEP: char := '/'

  const MAX_LEN: nat := 4000
  const LEFT_BORDER: string := "║ "
  const NULL_TIPS: string := "Log with null object."
  const NULL: string := "null"
  const ARGS: string := "args"

  /** The 99 horizontal bars of the top and the bottom border. */
  const BARS: string := "═══════════════════════════════════════════════════════════════════════════════════════════════════"
  const TOP_BORDER: string := "╔" + BARS
  const BOTTOM_BORDER: string := "╚" + BARS

  lemma BordersShape()
    ensures |TOP_BORDER| == 100 && |BOTTOM_BORDER| == 100 && |LEFT_BORDER| == 2
    ensures TOP_BORDER[0] == '╔' && BOTTOM_BORDER[0] == '╚'
    ensures TOP_BORDER[1..] == BOTTOM_BORDER[1..] == BARS
    ensures LINE_SEP !in LEFT_BORDER
  {
  }

  // ===========================================================================
  // Log kinds
  // ===========================================================================

  /** The six Android severities. */
  datatype Level = V | D | I | W | E | A

  /** The `int` constant of each severity; the filter compares these numerically. */
  function Flag(l: Level): (f: int)
    ensures 0x01 <= f <= 0x20
  {
    match l
    case V => 0x01
    case D => 0x02
    case I => 0x04
    case W => 0x08
    case E => 0x10
    case A => 0x20
  }

  /** Position of a severity from `V` (0) to `A` (5). */
  function Rank(l: Level): nat {
    match l
    case V => 0
    case D => 1
    case I => 2
    case W => 3
    case E => 4
    case A => 5
  }

  /** The flags grow with severity, so `type >= filter` means "at least as severe". */
  lemma FlagMonotone(l: Level, m: Level)
    ensures Rank(l) < Rank(m) <==> Flag(l) < Flag(m)
    ensures Flag(l) == Flag(m) <==> l == m
  {
  }

  /** The `type` argument of `log`: a severity, or one of the pseudo-kinds. */
  datatype LogType = Std(level: Level) | FILE | JSON | XML

  /** The `int` constant of each kind. */
  function TypeCode(t: LogType): int {
    match t
    case Std(l) => Flag(l)
    case FILE => 0xF1
    case JSON => 0xF2
    case XML => 0xF4
  }

  /** The nine constants are distinct, so the `switch` on them tells every kind apart. */
  lemma TypeCodeInjective(s: LogType, t: LogType)
    ensures TypeCode(s) == TypeCode(t) <==> s == t
  {
    if s.Std? && t.Std? {
      FlagMonotone(s.level, t.level);
    }
  }

  // ===========================================================================
  // Configuration (the static fields of LogUtils, as one value)
  // ===========================================================================

  datatype Config = Config(
    logSwitch: bool,
    globalTag: Option<string>,
    tagIsSpace: bool,
    headSwitch: bool,
    fileSwitch: bool,
    borderSwitch: bool,
    logFilter: int,
    dir: Option<string>,
    defaultDir: Option<string>)

  /** The initial values of the static fields. */
  const DEFAULT_CONFIG: Config :=
    Config(true, None, true, true, false, true, 0x01, None, None)

  // ===========================================================================
  // Tag and head (processContents, first half)
  // ===========================================================================

  /** The caller frame `getStackTrace()[5]` and the current thread's name. */
  datatype CallSite = CallSite(thread: string, className: string, methodName: string, lineNumber: int)

  /**
   * The caller's simple class name: the last `.`-segment, cut before the first
   * `$`. `None` when `split("\\$")` leaves no piece to index, which throws.
   */
  function SimpleClassName(className: string): Option<string> {
    var info := Split(className, '.');
    var last := if |info| > 0 then info[|info| - 1] else className;
    if '$' in last then
      var parts := Split(last, '$');
      if |parts| > 0 then Some(parts[0]) else None
    else Some(last)
  }

  /** The head line `"Thread: %s, %s(%s.java:%d)" + LINE_SEP`. */
  function HeadLine(site: CallSite, cls: string): string {
    "Thread: " + site.thread + ", " + site.methodName + "(" + cls + ".java:" + IntToString(site.lineNumber) + ")" + [LINE_SEP]
  }

  /** The tag a message is logged under and its head text. */
  datatype Resolved = Resolved(tag: Option<string>, head: string)

  /** Tag and head resolution; `None` when the class-name derivation throws. */
  function Resolve(cfg: Config, tag: Option<string>, site: CallSite): Option<Resolved> {
    if !cfg.tagIsSpace && !cfg.headSwitch then Some(Resolved(cfg.globalTag, ""))
    else match SimpleClassName(site.className)
      case None => None
      case Some(cls) =>
        var t := if cfg.tagIsSpace && IsBlank(tag) then Some(cls) else tag;
        Some(Resolved(t, if cfg.headSwitch then HeadLine(site, cls) else ""))
  }

  // ===========================================================================
  // Body (processContents, second half)
  // ===========================================================================

  /**
   * The pretty-printers of org.json and javax.xml.transform, which this model
   * leaves abstract; `None` stands for the exception they throw.
   */
  datatype Pretty = Pretty(
    jsonObject: string -> Option<string>,
    jsonArray: string -> Option<string>,
    xml: string -> Option<string>)

  /** `formatJson`. */
  function FormatJson(p: Pretty, json: string): string {
    if StartsWith(json, '{') then p.jsonObject(json).GetOr(json)
    else if StartsWith(json, '[') then p.jsonArray(json).GetOr(json)
    else json
  }

  /** `formatXml`: the transformed text with a line break after its first `>`. */
  function FormatXml(p: Pretty, xml: string): string {
    match p.xml(xml)
    case None => xml
    case Some(out) => ReplaceFirst(out, '>', ">" + [LINE_SEP])
  }

  /** One line of a multi-value body, without its line separator. */
  function ArgLine(i: nat, v: Option<string>): string {
    ARGS + "[" + IntToString(i) + "]" + " = " + JStr(v)
  }

  function ArgLines(cs: seq<Option<string>>): (ls: seq<string>)
    ensures |ls| == |cs|
  {
    seq(|cs|, i requires 0 <= i < |cs| => ArgLine(i, cs[i]))
  }

  /** The `args[i] = v` listing, every line terminated. */
  function ArgsText(cs: seq<Option<string>>): string {
    JoinTerminated(ArgLines(cs), LINE_SEP)
  }

  /** The body for the `contents` array (`None` is a null array; elements are their `toString`). */
  function Body(t: LogType, contents: Option<seq<Option<string>>>, p: Pretty): string {
    match contents
    case None => NULL_TIPS
    case Some(cs) =>
      if |cs| == 1 then
        var b := JStr(cs[0]);
        if t == JSON then FormatJson(p, b) else if t == XML then FormatXml(p, b) else b
      else ArgsText(cs)
  }

  /** Every piece of `msg.split(LINE_SEP)` behind the left border. */
  function BorderLines(pieces: seq<string>): (ls: seq<string>)
    ensures |ls| == |pieces|
  {
    seq(|pieces|, i requires 0 <= i < |pieces| => LEFT_BORDER + pieces[i])
  }

  /** The message with the left border on. */
  function Framed(msg: string): string {
    JoinTerminated(BorderLines(Split(msg, LINE_SEP)), LINE_SEP)
  }

  /** Tag and message as `processContents` returns them. */
  datatype Processed = Processed(tag: Option<string>, msg: string)

  /** `processContents`; `None` when it throws. */
  function Process(cfg: Config, t: LogType, tag: Option<string>, contents: Option<seq<Option<string>>>,
                   site: CallSite, p: Pretty): Option<Processed>
  {
    match Resolve(cfg, tag, site)
    case None => None
    case Some(r) =>
      var msg := r.head + Body(t, contents, p);
      Some(Processed(r.tag, if cfg.borderSwitch then Framed(msg) else msg))
  }

  // ===========================================================================
  // Console chunks (printLog)
  // ===========================================================================

  /** The raw pieces `printLog` writes: 4000 characters each, then what is left (maybe nothing). */
  function Cut(msg: string): (r: seq<string>)
    ensures |r| >= 1
    decreases |msg|
  {
    if |msg| < MAX_LEN then [msg] else [msg[..MAX_LEN]] + Cut(msg[MAX_LEN..])
  }

  /** The body writes: pieces after the first carry the left border when it is on. */
  function BodyWrites(border: bool, msg: string): (ws: seq<string>)
    ensures |ws| == |Cut(msg)|
  {
    var c := Cut(msg);
    seq(|c|, i requires 0 <= i < |c| => if border && i > 0 then LEFT_BORDER + c[i] else c[i])
  }

  /** Everything `printLog` writes, in order. */
  function PrintTexts(border: bool, msg: string): seq<string> {
    (if border then [TOP_BORDER] else []) + BodyWrites(border, msg) + (if border then [BOTTOM_BORDER] else [])
  }

  function Concat(ss: seq<string>): string
    decreases |ss|
  {
    if ss == [] then [] else ss[0] + Concat(ss[1..])
  }

  /** A body write with the left border taken off again. */
  function Unbordered(border: bool, i: nat, w: string): string {
    if border && i > 0 && |w| >= |LEFT_BORDER| then w[|LEFT_BORDER|..] else w
  }

  function UnborderedWrites(border: bool, ws: seq<string>): (r: seq<string>)
    ensures |r| == |ws|
  {
    seq(|ws|, i requires 0 <= i < |ws| => Unbordered(border, i, ws[i]))
  }

  // ===========================================================================
  // File name and block (print2File)
  // ===========================================================================

  datatype DateTime = DateTime(month: nat, day: nat, hour: nat, minute: nat, second: nat, milli: nat)

  /** A local date and time as the formatter sees it. */
  type Clock = t: DateTime
    | 1 <= t.month <= 12 && 1 <= t.day <= 31 && t.hour < 24 && t.minute < 60 && t.second < 60 && t.milli < 1000
    witness DateTime(1, 1, 0, 0, 0, 0)

  /** A zero-padded two-digit field. */
  function Two(n: nat): (s: string)
    requires n < 100
    ensures |s| == 2
  {
    [DigitChar(n / 10), DigitChar(n % 10)]
  }

  function Three(n: nat): (s: string)
    requires n < 1000
    ensures |s| == 3
  {
    [DigitChar(n / 100), DigitChar(n / 10 % 10), DigitChar(n % 10)]
  }

  /** `FORMAT.format(now)` for the pattern `"MM-dd HH:mm:ss.SSS "`. */
  function Stamp(c: Clock): (s: string)
    ensures |s| == 19
  {
    Two(c.month) + "-" + Two(c.day) + " " + Two(c.hour) + ":" + Two(c.minute) + ":" + Two(c.second) + "." + Three(c.milli) + " "
  }

  /** `format.substring(0, 5)`. */
  function DatePart(c: Clock): string {
    Stamp(c)[..5]
  }

  /** `format.substring(6)`. */
  function TimePart(c: Clock): string {
    Stamp(c)[6..]
  }

  /** `(dir == null ? defaultDir : dir) + date + ".txt"`. */
  function FilePath(dir: Option<string>, defaultDir: Option<string>, c: Clock): string {
    JStr(if dir.None? then defaultDir else dir) + DatePart(c) + ".txt"
  }

  /** The text one `print2File` call queues for appending. */
  function FileBlock(border: bool, time: string, tag: Option<string>, msg: string): string {
    if border then
      TOP_BORDER + [LINE_SEP] + LEFT_BORDER + time + JStr(tag) + [LINE_SEP] + msg + BOTTOM_BORDER + [LINE_SEP] + [LINE_SEP]
    else
      time + JStr(tag) + [LINE_SEP] + msg + [LINE_SEP] + [LINE_SEP]
  }

  /** The header a block starts with. */
  function BlockHeader(border: bool, time: string, tag: Option<string>): string {
    if border then TOP_BORDER + [LINE_SEP] + LEFT_BORDER + time + JStr(tag) + [LINE_SEP]
    else time + JStr(tag) + [LINE_SEP]
  }

  /** The footer a block ends with. */
  function BlockFooter(border: bool): string {
    if border then BOTTOM_BORDER + [LINE_SEP] + [LINE_SEP] else [LINE_SEP] + [LINE_SEP]
  }

  // ===========================================================================
  // Properties: class name and tag
  // ===========================================================================

  /** The last `.`-segment the class name reduces to before the `$` cut. */
  function LastSegment(className: string): string {
    var info := Split(className, '.');
    if |info| > 0 then info[|info| - 1] else className
  }

  /** Deriving the simple name throws exactly when the last segment is a non-empty run of `$`. */
  lemma SimpleClassNameThrows(className: string)
    ensures SimpleClassName(className).None?
        <==> |LastSegment(className)| > 0 && forall j :: 0 <= j < |LastSegment(className)| ==> LastSegment(className)[j] == '$'
  {
    var last := LastSegment(className);
    SplitEmpty(last, '$');
    if |last| > 0 && forall j :: 0 <= j < |last| ==> last[j] == '$' {
      assert last[0] == '$';
    }
  }

  /** `pkg.Name` gives `Name`. */
  lemma SimpleClassNameQualified(pkg: string, name: string)
    requires name != [] && '.' !in name && '$' !in name
    ensures SimpleClassName(pkg + "." + name) == Some(name)
  {
    var c := pkg + "." + name;
    assert c == pkg + ['.'] + name;
    assert c[|pkg|] == '.';
    PiecesAtSep(pkg, name, '.');
    PiecesWithoutSep(name, '.');
    DropTrailingKeepsAll(Pieces(c, '.'));
  }

  /** `pkg.Outer$Inner` gives `Outer`. */
  lemma SimpleClassNameNested(pkg: string, outer: string, inner: string)
    requires outer != [] && '.' !in outer && '$' !in outer && '.' !in inner
    ensures SimpleClassName(pkg + "." + outer + "$" + inner) == Some(outer)
  {
    var last := outer + "$" + inner;
    var c := pkg + "." + outer + "$" + inner;
    assert c == pkg + ['.'] + last;
    assert c[|pkg|] == '.';
    assert '.' !in last by {
      assert forall j :: 0 <= j < |last| ==> last[j] == (if j < |outer| then outer[j] else if j == |outer| then '$' else inner[j - |outer| - 1]);
    }
    PiecesAtSep(pkg, last, '.');
    PiecesWithoutSep(last, '.');
    DropTrailingKeepsAll(Pieces(c, '.'));
    assert LastSegment(c) == last;
    assert last == outer + ['$'] + inner;
    assert last[|outer|] == '$';
    PiecesAtSep(outer, inner, '$');
    PiecesWithoutSep(outer, '$');
    DropTrailingKeepsFirst(Pieces(last, '$'));
  }

  /** A class named `$` (a legal Java identifier) makes the derivation throw. */
  lemma SimpleClassNameDollar()
    ensures SimpleClassName("$").None?
  {
    SimpleClassNameThrows("$");
    assert Split("$", '.') == ["$"];
  }

  /** With no global-tag placeholder and no head the tag is the global tag, whatever was passed. */
  lemma TagPinned(cfg: Config, tag: Option<string>, site: CallSite)
    requires !cfg.tagIsSpace && !cfg.headSwitch
    ensures Resolve(cfg, tag, site) == Some(Resolved(cfg.globalTag, ""))
  {
  }

  /** A blank tag under a blank global tag becomes the caller's simple class name. */
  lemma TagFromClassName(cfg: Config, tag: Option<string>, site: CallSite, cls: string)
    requires cfg.tagIsSpace && IsBlank(tag) && SimpleClassName(site.className) == Some(cls)
    ensures Resolve(cfg, tag, site).Some? && Resolve(cfg, tag, site).value.tag == Some(cls)
  {
  }

  /** In every other case the passed tag is kept. */
  lemma TagKept(cfg: Config, tag: Option<string>, site: CallSite)
    requires cfg.tagIsSpace || cfg.headSwitch
    requires !(cfg.tagIsSpace && IsBlank(tag))
    requires SimpleClassName(site.className).Some?
    ensures Resolve(cfg, tag, site).Some? && Resolve(cfg, tag, site).value.tag == tag
  {
  }

  /** There is a head exactly when the head switch is on, and it is the formatted caller line. */
  lemma HeadOnlyWithSwitch(cfg: Config, tag: Option<string>, site: CallSite)
    requires Resolve(cfg, tag, site).Some?
    ensures var r := Resolve(cfg, tag, site).value;
      (cfg.headSwitch ==> SimpleClassName(site.className).Some? && r.head == HeadLine(site, SimpleClassName(site.className).value))
      && (!cfg.headSwitch ==> r.head == "")
    ensures cfg.headSwitch ==> EndsWith(Resolve(cfg, tag, site).value.head, LINE_SEP)
  {
  }

  /** The caller frame is needed, and may throw, exactly when the tag is not pinned. */
  lemma ResolveThrows(cfg: Config, tag: Option<string>, site: CallSite)
    ensures Resolve(cfg, tag, site).None? <==> (cfg.tagIsSpace || cfg.headSwitch) && SimpleClassName(site.className).None?
  {
  }

  // ===========================================================================
  // Properties: body
  // ===========================================================================

  lemma BodyOfNullArray(t: LogType, p: Pretty)
    ensures Body(t, None, p) == NULL_TIPS
  {
  }

  /** One element gives its text (or "null"); only JSON and XML reformat it. */
  lemma BodyOfOneValue(t: LogType, v: Option<string>, p: Pretty)
    ensures t != JSON && t != XML ==> Body(t, Some([v]), p) == JStr(v)
    ensures t == JSON ==> Body(t, Some([v]), p) == FormatJson(p, JStr(v))
    ensures t == XML ==> Body(t, Some([v]), p) == FormatXml(p, JStr(v))
  {
  }

  lemma BodyOfEmptyArray(t: LogType, p: Pretty)
    ensures Body(t, Some([]), p) == ""
  {
  }

  lemma NoLineSepInDigits(s: string)
    requires AllDigits(s)
    ensures LINE_SEP !in s
  {
    forall j | 0 <= j < |s|
      ensures s[j] != LINE_SEP
    {
      assert IsDigit(s[j]);
    }
  }

  /** An `args[i] = v` line is never empty and has no line break when `v` has none. */
  lemma ArgLineShape(i: nat, v: Option<string>)
    requires LINE_SEP !in JStr(v)
    ensures ArgLine(i, v) == "args[" + IntToString(i) + "] = " + JStr(v)
    ensures ArgLine(i, v) != [] && LINE_SEP !in ArgLine(i, v)
  {
    var n := IntToString(i);
    var t := JStr(v);
    var l := ArgLine(i, v);
    NoLineSepInDigits(n);
    assert l == "args[" + n + "] = " + t;
    forall j | 0 <= j < |l|
      ensures l[j] != LINE_SEP
    {
      if j < 5 {
        assert l[j] == "args["[j];
      } else if j < 5 + |n| {
        assert l[j] == n[j - 5];
      } else if j < 9 + |n| {
        assert l[j] == "] = "[j - 5 - |n|];
      } else {
        assert l[j] == t[j - 9 - |n|];
      }
    }
  }

  /**
   * With values free of line breaks, the multi-value body splits back into
   * exactly one `args[i] = v` line per element, in index order.
   */
  lemma ArgsTextLines(cs: seq<Option<string>>)
    requires |cs| > 0
    requires forall i :: 0 <= i < |cs| ==> LINE_SEP !in JStr(cs[i])
    ensures Split(ArgsText(cs), LINE_SEP) == ArgLines(cs)
    ensures forall i :: 0 <= i < |cs| ==> ArgLines(cs)[i] == "args[" + IntToString(i) + "] = " + JStr(cs[i])
  {
    var ls := ArgLines(cs);
    forall i | 0 <= i < |ls|
      ensures ls[i] != [] && LINE_SEP !in ls[i]
      ensures ls[i] == "args[" + IntToString(i) + "] = " + JStr(cs[i])
    {
      ArgLineShape(i, cs[i]);
    }
    SplitTerminated(ls, LINE_SEP);
  }

  /** `formatJson` leaves text that is neither an object nor an array untouched. */
  lemma FormatJsonPassThrough(p: Pretty, json: string)
    requires !StartsWith(json, '{') && !StartsWith(json, '[')
    ensures FormatJson(p, json) == json
  {
  }

  /** When org.json throws, `formatJson` falls back to its input. */
  lemma FormatJsonFallback(p: Pretty, json: string)
    requires StartsWith(json, '{') ==> p.jsonObject(json).None?
    requires StartsWith(json, '[') ==> p.jsonArray(json).None?
    ensures FormatJson(p, json) == json
  {
  }

  /** When the transformer throws, `formatXml` falls back to its input. */
  lemma FormatXmlFallback(p: Pretty, xml: string)
    requires p.xml(xml).None?
    ensures FormatXml(p, xml) == xml
  {
  }

  /** Otherwise `formatXml` breaks the line after the first `>` of the output. */
  lemma FormatXmlBreaksFirstTag(p: Pretty, xml: string)
    requires p.xml(xml).Some? && '>' in p.xml(xml).value
    ensures var out := p.xml(xml).value;
      exists k :: 0 <= k < |out| && out[k] == '>' && '>' !in out[..k]
        && FormatXml(p, xml) == out[..k + 1] + [LINE_SEP] + out[k + 1..]
  {
    var out := p.xml(xml).value;
    var k := IndexOf(out, '>').value;
    assert out[..k] + (">" + [LINE_SEP]) + out[k + 1..] == out[..k + 1] + [LINE_SEP] + out[k + 1..] by {
      assert out[..k + 1] == out[..k] + ">";
    }
  }

  // ===========================================================================
  // Properties: the left-border frame
  // ===========================================================================

  /** Every line of the framed message is a piece of the message behind the left border. */
  lemma FramedLines(msg: string)
    requires |Split(msg, LINE_SEP)| > 0
    ensures Split(Framed(msg), LINE_SEP) == BorderLines(Split(msg, LINE_SEP))
  {
    var ps := Split(msg, LINE_SEP);
    var ls := BorderLines(ps);
    SplitHasNoSep(msg, LINE_SEP);
    forall i | 0 <= i < |ls|
      ensures ls[i] != [] && LINE_SEP !in ls[i]
    {
      var l := ls[i];
      assert l == LEFT_BORDER + ps[i];
      forall j | 0 <= j < |l|
        ensures l[j] != LINE_SEP
      {
        if j >= 2 {
          assert l[j] == ps[i][j - 2];
        }
      }
    }
    SplitTerminated(ls, LINE_SEP);
  }

  /** A one-line message is framed as one bordered, terminated line. */
  lemma FramedOneLine(msg: string)
    requires LINE_SEP !in msg
    ensures Framed(msg) == LEFT_BORDER + msg + [LINE_SEP]
  {
    assert Split(msg, LINE_SEP) == [msg];
    var ls := BorderLines([msg]);
    assert ls == [LEFT_BORDER + msg];
    assert JoinTerminated(ls, LINE_SEP) == ls[0] + [LINE_SEP] + JoinTerminated(ls[1..], LINE_SEP);
    assert ls[1..] == [];
  }

  /** The empty message still gives one (empty) bordered line. */
  lemma FramedEmpty()
    ensures Framed("") == LEFT_BORDER + [LINE_SEP]
  {
    FramedOneLine("");
  }

  /** A line with the left border taken off. */
  function StripBorder(line: string): string {
    if LEFT_BORDER <= line then line[|LEFT_BORDER|..] else line
  }

  function StripBorders(ls: seq<string>): (r: seq<string>)
    ensures |r| == |ls|
  {
    seq(|ls|, i requires 0 <= i < |ls| => StripBorder(ls[i]))
  }

  /**
   * Taking the border off the framed lines and rejoining them gives the
   * message back, up to the trailing line breaks `split` drops.
   */
  lemma FramedStrip(msg: string)
    ensures Join(StripBorders(Split(Framed(msg), LINE_SEP)), LINE_SEP) <= msg
    ensures forall k :: |Join(StripBorders(Split(Framed(msg), LINE_SEP)), LINE_SEP)| <= k < |msg| ==> msg[k] == LINE_SEP
  {
    SplitEmpty(msg, LINE_SEP);
    if Split(msg, LINE_SEP) == [] {
      // Only line breaks: nothing is framed, and nothing comes back.
      assert Framed(msg) == [];
      assert Split(Framed(msg), LINE_SEP) == [[]];
      assert StripBorders([[]]) == [[]];
      return;
    }
    FramedLines(msg);
    var ps := Split(msg, LINE_SEP);
    var ls := Split(Framed(msg), LINE_SEP);
    assert StripBorders(ls) == ps by {
      forall i | 0 <= i < |ls|
        ensures StripBorders(ls)[i] == ps[i]
      {
        assert ls[i] == LEFT_BORDER + ps[i];
        assert LEFT_BORDER <= ls[i];
      }
    }
    SplitRejoin(msg, LINE_SEP);
  }

  // ===========================================================================
  // Properties: console chunks
  // ===========================================================================

  /** `printLog` writes `len / 4000 + 1` body pieces, also when `len < 4000`. */
  lemma {:induction false} CutCount(msg: string)
    ensures |Cut(msg)| == |msg| / MAX_LEN + 1
    decreases |msg|
  {
    if |msg| >= MAX_LEN {
      CutCount(msg[MAX_LEN..]);
    }
  }

  /** Piece `i` is the `i`-th 4000-character slice; the last one is what is left. */
  lemma {:induction false} CutIndex(msg: string, i: nat)
    requires i <= |msg| / MAX_LEN
    ensures |Cut(msg)| == |msg| / MAX_LEN + 1
    ensures MAX_LEN * i <= |msg| && (i < |msg| / MAX_LEN ==> MAX_LEN * i + MAX_LEN <= |msg|)
    ensures i < |msg| / MAX_LEN ==> Cut(msg)[i] == msg[MAX_LEN * i..MAX_LEN * i + MAX_LEN]
    ensures i == |msg| / MAX_LEN ==> Cut(msg)[i] == msg[MAX_LEN * i..]
    decreases |msg|
  {
    CutCount(msg);
    if i > 0 {
      var rest := msg[MAX_LEN..];
      CutIndex(rest, i - 1);
      assert Cut(msg)[i] == Cut(rest)[i - 1];
      assert |rest| / MAX_LEN == |msg| / MAX_LEN - 1;
      if i < |msg| / MAX_LEN {
        assert rest[MAX_LEN * (i - 1)..MAX_LEN * (i - 1) + MAX_LEN] == msg[MAX_LEN * i..MAX_LEN * i + MAX_LEN];
      } else {
        assert rest[MAX_LEN * (i - 1)..] == msg[MAX_LEN * i..];
      }
    }
  }

  /** Every piece is at most 4000 characters; all but the last are exactly 4000. */
  lemma {:induction false} CutBound(msg: string)
    ensures forall i :: 0 <= i < |Cut(msg)| ==> |Cut(msg)[i]| <= MAX_LEN
    ensures forall i :: 0 <= i < |Cut(msg)| - 1 ==> |Cut(msg)[i]| == MAX_LEN
    decreases |msg|
  {
    if |msg| >= MAX_LEN {
      CutBound(msg[MAX_LEN..]);
      var c := Cut(msg);
      assert c[1..] == Cut(msg[MAX_LEN..]);
      assert forall i :: 1 <= i < |c| ==> c[i] == c[1..][i - 1];
    }
  }

  /** The last piece is empty exactly when the length is a multiple of 4000. */
  lemma {:induction false} CutLastEmpty(msg: string)
    ensures Cut(msg)[|Cut(msg)| - 1] == [] <==> |msg| % MAX_LEN == 0
    decreases |msg|
  {
    if |msg| >= MAX_LEN {
      CutLastEmpty(msg[MAX_LEN..]);
      var c := Cut(msg);
      assert c[|c| - 1] == Cut(msg[MAX_LEN..])[|Cut(msg[MAX_LEN..])| - 1];
      assert |msg| % MAX_LEN == (|msg| - MAX_LEN) % MAX_LEN;
    }
  }

  /** The pieces concatenate back to the message. */
  lemma {:induction false} CutConcat(msg: string)
    ensures Concat(Cut(msg)) == msg
    decreases |msg|
  {
    if |msg| >= MAX_LEN {
      CutConcat(msg[MAX_LEN..]);
      var c := Cut(msg);
      assert c[1..] == Cut(msg[MAX_LEN..]);
      assert msg == msg[..MAX_LEN] + msg[MAX_LEN..];
    }
  }

  /** A message under 4000 characters is written in one piece, as it is. */
  lemma ShortMessageOneWrite(border: bool, msg: string)
    requires |msg| < MAX_LEN
    ensures BodyWrites(border, msg) == [msg]
  {
  }

  /** Pieces after the first start with the left border iff the border is on. */
  lemma LaterWritesBordered(border: bool, msg: string, i: nat)
    requires 0 < i < |BodyWrites(border, msg)|
    ensures border ==> BodyWrites(border, msg)[i] == LEFT_BORDER + Cut(msg)[i]
    ensures !border ==> BodyWrites(border, msg)[i] == Cut(msg)[i]
    ensures BodyWrites(border, msg)[0] == Cut(msg)[0]
  {
  }

  /** Taking the borders off the body writes and concatenating them rebuilds the message exactly. */
  lemma UnborderRebuilds(border: bool, msg: string)
    ensures Concat(UnborderedWrites(border, BodyWrites(border, msg))) == msg
  {
    var ws := BodyWrites(border, msg);
    assert UnborderedWrites(border, ws) == Cut(msg) by {
      forall i | 0 <= i < |ws|
        ensures Unbordered(border, i, ws[i]) == Cut(msg)[i]
      {
        if border && i > 0 {
          assert ws[i] == LEFT_BORDER + Cut(msg)[i];
        }
      }
    }
    CutConcat(msg);
  }

  /** The top border is written first and the bottom border last, iff the border is on. */
  lemma PrintTextsFrame(border: bool, msg: string)
    ensures var ts := PrintTexts(border, msg);
      && (border ==> |ts| >= 3 && ts[0] == TOP_BORDER && ts[|ts| - 1] == BOTTOM_BORDER
                     && ts[1..|ts| - 1] == BodyWrites(border, msg))
      && (!border ==> ts == BodyWrites(border, msg))
  {
    var ts := PrintTexts(border, msg);
    if border {
      assert ts == [TOP_BORDER] + BodyWrites(border, msg) + [BOTTOM_BORDER];
    }
  }

  // ===========================================================================
  // Properties: file name and block
  // ===========================================================================

  lemma DatePartIs(c: Clock)
    ensures DatePart(c) == Two(c.month) + "-" + Two(c.day)
    ensures TimePart(c) == Two(c.hour) + ":" + Two(c.minute) + ":" + Two(c.second) + "." + Three(c.milli) + " "
  {
  }

  lemma TwoInjective(m: nat, n: nat)
    requires m < 100 && n < 100 && Two(m) == Two(n)
    ensures m == n
  {
    assert Two(m)[0] == Two(n)[0] && Two(m)[1] == Two(n)[1];
    assert m == (m / 10) * 10 + m % 10;
  }

  /** The same month and day give the same file. */
  lemma FilePathSameDay(dir: Option<string>, defaultDir: Option<string>, c: Clock, d: Clock)
    requires c.month == d.month && c.day == d.day
    ensures FilePath(dir, defaultDir, c) == FilePath(dir, defaultDir, d)
  {
    DatePartIs(c);
    DatePartIs(d);
  }

  /** Different days give different files. */
  lemma FilePathDistinctDays(dir: Option<string>, defaultDir: Option<string>, c: Clock, d: Clock)
    requires c.month != d.month || c.day != d.day
    ensures FilePath(dir, defaultDir, c) != FilePath(dir, defaultDir, d)
  {
    DatePartIs(c);
    DatePartIs(d);
    var base := JStr(if dir.None? then defaultDir else dir);
    var pc, pd := FilePath(dir, defaultDir, c), FilePath(dir, defaultDir, d);
    if pc == pd {
      assert pc[|base|..|base| + 5] == DatePart(c);
      assert pd[|base|..|base| + 5] == DatePart(d);
      var dc, dd := DatePart(c), DatePart(d);
      assert dc[..2] == Two(c.month) && dd[..2] == Two(d.month);
      assert dc[3..] == Two(c.day) && dd[3..] == Two(d.day);
      TwoInjective(c.month, d.month);
      TwoInjective(c.day, d.day);
    }
  }

  /** The file name starts with the configured directory, or the default one, or "null". */
  lemma FilePathDirectory(dir: Option<string>, defaultDir: Option<string>, c: Clock)
    ensures dir.Some? ==> dir.value <= FilePath(dir, defaultDir, c)
    ensures dir.None? && defaultDir.Some? ==> defaultDir.value <= FilePath(dir, defaultDir, c)
    ensures dir.None? && defaultDir.None? ==> "null" <= FilePath(dir, defaultDir, c)
    ensures EndsWith(FilePath(dir, defaultDir, c), 't') && FilePath(dir, defaultDir, c)[|FilePath(dir, defaultDir, c)| - 4..] == ".txt"
  {
  }

  /** A block is its header, the message, and its footer; the message can be cut back out. */
  lemma FileBlockParts(border: bool, time: string, tag: Option<string>, msg: string)
    ensures var b := FileBlock(border, time, tag, msg);
      var h, f := BlockHeader(border, time, tag), BlockFooter(border);
      && b == h + msg + f
      && |b| == |h| + |msg| + |f|
      && b[|h|..|b| - |f|] == msg
    ensures border ==> BlockHeader(border, time, tag)[..|TOP_BORDER|] == TOP_BORDER
    ensures BlockFooter(border) == (if border then BOTTOM_BORDER else []) + [LINE_SEP, LINE_SEP]
  {
    var b := FileBlock(border, time, tag, msg);
    var h, f := BlockHeader(border, time, tag), BlockFooter(border);
    assert b == h + msg + f;
    assert (h + msg + f)[|h|..|h| + |msg|] == msg;
  }
}
