/**
 * The logging engine of `LogUtils`: the static configuration and sinks as one
 * `Logger` object, the `Builder` that sets the configuration, and the
 * dispatch, rendering, console and file paths of `log`.
 *
 * The console is the trace of `(level, tag, text)` lines the Android `Log`
 * calls would receive; the single-thread executor is the queue of pending file
 * tasks, run one at a time by `RunNext`.
 */
module LogUtils {
  import opened Optional
  import opened JavaLang
  import opened JavaSplit
  import opened LogFormat
  import opened LogFiles

  datatype ConsoleLine = Line(level: Level, tag: Option<string>, text: string)

  /** A queued `Runnable` of `print2File`: append `block` to `path`, then report under `tag`. */
  datatype FileTask = FileTask(tag: Option<string>, path: string, block: string)

  /** Everything a log call can change besides the configuration. */
  datatype Sinks = Sinks(console: seq<ConsoleLine>, pending: seq<FileTask>, executorStarted: bool, fs: FileSystem)

  /** What a log call did: whether it threw, and the sinks afterwards. */
  datatype Outcome = Outcome(thrown: bool, out: Sinks)

  // ===========================================================================
  // Specification of the sinks
  // ===========================================================================

  function Lines(level: Level, tag: Option<string>, texts: seq<string>): (r: seq<ConsoleLine>)
    ensures |r| == |texts|
  {
    seq(|texts|, i requires 0 <= i < |texts| => Line(level, tag, texts[i]))
  }

  /** One `printLog(level, tag, msg)`. */
  function Printed(cfg: Config, out: Sinks, level: Level, tag: Option<string>, msg: string): Sinks {
    out.(console := out.console + Lines(level, tag, PrintTexts(cfg.borderSwitch, msg)))
  }

  function FailedLine(tag: Option<string>, path: string): ConsoleLine {
    Line(E, tag, "log to " + path + " failed!")
  }

  function SuccessLine(tag: Option<string>, path: string): ConsoleLine {
    Line(D, tag, "log to " + path + " success!")
  }

  /** One `print2File(tag, msg)` at local time `c`. */
  function FileEffect(cfg: Config, out: Sinks, tag: Option<string>, msg: string, c: Clock): Sinks {
    var path := FilePath(cfg.dir, cfg.defaultDir, c);
    var (ok, fs1) := CreateOrExistsFile(out.fs, path);
    if !ok then out.(fs := fs1, console := out.console + [FailedLine(tag, path)])
    else out.(fs := fs1, executorStarted := true,
              pending := out.pending + [FileTask(tag, path, FileBlock(cfg.borderSwitch, TimePart(c), tag, msg))])
  }

  /** One `log(type, tag, contents)`. */
  function LogEffect(cfg: Config, out: Sinks, t: LogType, tag: Option<string>, contents: Option<seq<Option<string>>>,
                     site: CallSite, p: Pretty, c: Clock): Outcome
  {
    if !cfg.logSwitch then Outcome(false, out)
    else match Process(cfg, t, tag, contents, site, p)
      case None => Outcome(true, out)
      case Some(pr) => Outcome(false, Delivered(cfg, out, t, pr.tag, pr.msg, c))
  }

  /** Where `log` sends the processed message: the console, the file, both, or neither. */
  function Delivered(cfg: Config, out: Sinks, t: LogType, tag: Option<string>, msg: string, c: Clock): Sinks {
    match t
    case Std(l) =>
      if Flag(l) >= cfg.logFilter then
        var printed := Printed(cfg, out, l, tag, msg);
        if cfg.fileSwitch then FileEffect(cfg, printed, tag, msg, c) else printed
      else out
    case FILE => FileEffect(cfg, out, tag, msg, c)
    case JSON => Printed(cfg, out, D, tag, msg)
    case XML => Printed(cfg, out, D, tag, msg)
  }

  /** The worker runs the oldest task: append its block, then report success or failure. */
  function Step(out: Sinks): Sinks
    requires out.pending != []
  {
    var task := out.pending[0];
    var rest := out.(pending := out.pending[1..]);
    match AppendFile(out.fs, task.path, task.block)
    case None => rest.(console := out.console + [FailedLine(task.tag, task.path)])
    case Some(fs1) => rest.(fs := fs1, console := out.console + [SuccessLine(task.tag, task.path)])
  }

  /** The worker runs every queued task, in order. */
  function Drain(out: Sinks): Sinks
    decreases |out.pending|
  {
    if out.pending == [] then out else Drain(Step(out))
  }

  // ===========================================================================
  // The Builder's settings, as functions
  // ===========================================================================

  /** `defaultDir` after a `Builder` is constructed: assigned only while it is still null. */
  function DefaultDirAfter(current: Option<string>, mounted: bool, externalCacheDir: Option<string>, cacheDir: string): Option<string> {
    if current.Some? then current
    else Some((if mounted && externalCacheDir.Some? then externalCacheDir.value else cacheDir) + [FILE_SEP] + "log" + [FILE_SEP])
  }

  /** `setGlobalTag`. */
  function TagSetting(cfg: Config, tag: Option<string>): Config {
    if IsBlank(tag) then cfg.(globalTag := Some(""), tagIsSpace := true)
    else cfg.(globalTag := tag, tagIsSpace := false)
  }

  /** `setDir(String)`. */
  function DirSetting(dir: Option<string>): Option<string> {
    if IsBlank(dir) then None
    else if EndsWith(dir.value, FILE_SEP) then dir
    else Some(dir.value + [FILE_SEP])
  }

  /** `setDir(File)`, given the file's absolute path (or null). */
  function DirFromFile(absolutePath: Option<string>): Option<string> {
    match absolutePath
    case None => None
    case Some(a) => Some(a + [FILE_SEP])
  }

  // ===========================================================================
  // Helpers of processContents with the source's loops
  // ===========================================================================

  /** `isSpace`. */
  method IsSpace(s: Option<string>) returns (b: bool)
    ensures b == IsBlank(s)
  {
    if s.None? {
      return true;
    }
    var str := s.value;
    for i := 0 to |str|
      invariant forall k :: 0 <= k < i ==> IsWhitespace(str[k])
    {
      if !IsWhitespace(str[i]) {
        return false;
      }
    }
    return true;
  }

  /** The `StringBuilder` loop listing every element as `args[i] = v`. */
  method ArgsBody(cs: seq<Option<string>>) returns (body: string)
    ensures body == ArgsText(cs)
  {
    body := "";
    for i := 0 to |cs|
      invariant body == JoinTerminated(ArgLines(cs)[..i], LINE_SEP)
    {
      var line := ARGS + "[" + IntToString(i) + "]" + " = " + JStr(cs[i]);
      assert line == ArgLines(cs)[i];
      JoinTerminatedSnoc(ArgLines(cs)[..i], line, LINE_SEP);
      assert ArgLines(cs)[..i + 1] == ArgLines(cs)[..i] + [line];
      body := body + line + [LINE_SEP];
    }
    assert ArgLines(cs)[..|cs|] == ArgLines(cs);
  }

  /** The second half of `processContents`: the text for `contents`. */
  method ContentsBody(t: LogType, contents: Option<seq<Option<string>>>, p: Pretty) returns (body: string)
    ensures body == Body(t, contents, p)
  {
    body := NULL_TIPS;
    if contents.Some? {
      if |contents.value| == 1 {
        body := JStr(contents.value[0]);
        if t == JSON {
          body := FormatJson(p, body);
        } else if t == XML {
          body := FormatXml(p, body);
        }
      } else {
        body := ArgsBody(contents.value);
      }
    }
  }

  /** The `StringBuilder` loop putting every line of `msg` behind the left border. */
  method FrameMessage(msg: string) returns (framed: string)
    ensures framed == Framed(msg)
  {
    var lines := Split(msg, LINE_SEP);
    framed := "";
    for i := 0 to |lines|
      invariant framed == JoinTerminated(BorderLines(lines)[..i], LINE_SEP)
    {
      JoinTerminatedSnoc(BorderLines(lines)[..i], LEFT_BORDER + lines[i], LINE_SEP);
      assert BorderLines(lines)[..i + 1] == BorderLines(lines)[..i] + [LEFT_BORDER + lines[i]];
      framed := framed + LEFT_BORDER + lines[i] + [LINE_SEP];
    }
    assert BorderLines(lines)[..|lines|] == BorderLines(lines);
  }

  /** Proof helper: rendering console lines distributes over concatenation. */
  lemma LinesAppend(level: Level, tag: Option<string>, a: seq<string>, b: seq<string>)
    ensures Lines(level, tag, a + b) == Lines(level, tag, a) + Lines(level, tag, b)
  {
  }

  /** The console lines of one `printLog`: the top border, the pieces, the bottom border. */
  lemma PrintTextsLines(level: Level, tag: Option<string>, border: bool, msg: string)
    ensures var body := Lines(level, tag, BodyWrites(border, msg));
      Lines(level, tag, PrintTexts(border, msg))
        == if border then [Line(level, tag, TOP_BORDER)] + body + [Line(level, tag, BOTTOM_BORDER)] else body
  {
    var top: seq<string> := if border then [TOP_BORDER] else [];
    var bottom: seq<string> := if border then [BOTTOM_BORDER] else [];
    LinesAppend(level, tag, top, BodyWrites(border, msg));
    LinesAppend(level, tag, top + BodyWrites(border, msg), bottom);
  }

  /** Proof helper for `PrintLog`: regrouping the top line, the body and the bottom line appended to the trace. */
  lemma Framing(before: seq<ConsoleLine>, top: ConsoleLine, body: seq<ConsoleLine>, bottom: ConsoleLine)
    ensures before + [top] + body + [bottom] == before + ([top] + body + [bottom])
  {
  }

  /** Proof helper for `PrintChunks`: one more line appended to a trace that already grew by `body`. */
  lemma Extend(before: seq<ConsoleLine>, body: seq<ConsoleLine>, line: ConsoleLine)
    ensures before + body + [line] == before + (body + [line])
  {
  }

  /** Proof helper for the chunk lemmas of `PrintChunks`: one more body write extends the trace by its line. */
  lemma WriteStep(level: Level, tag: Option<string>, ws: seq<string>, i: nat, w: string)
    requires i < |ws| && ws[i] == w
    ensures Lines(level, tag, ws[..i + 1]) == Lines(level, tag, ws[..i]) + [Line(level, tag, w)]
  {
    assert ws[..i + 1] == ws[..i] + [w];
    LinesAppend(level, tag, ws[..i], [w]);
  }

  /** The first write of a message of at least one full piece: its first 4000 characters. */
  lemma ChunkFirst(level: Level, tag: Option<string>, border: bool, msg: string)
    requires |msg| >= MAX_LEN
    ensures |BodyWrites(border, msg)| == |msg| / MAX_LEN + 1
    ensures Lines(level, tag, BodyWrites(border, msg)[..1]) == [Line(level, tag, msg[..MAX_LEN])]
  {
    CutIndex(msg, 0);
    assert BodyWrites(border, msg)[..1] == [msg[..MAX_LEN]];
  }

  /** A full piece `i` at offset `index` continues the trace. */
  lemma ChunkNext(level: Level, tag: Option<string>, border: bool, msg: string, i: nat, index: nat)
    requires 0 < i < |msg| / MAX_LEN && index == MAX_LEN * i
    ensures |BodyWrites(border, msg)| == |msg| / MAX_LEN + 1
    ensures index + MAX_LEN <= |msg|
    ensures var sub := msg[index..index + MAX_LEN];
      Lines(level, tag, BodyWrites(border, msg)[..i + 1])
        == Lines(level, tag, BodyWrites(border, msg)[..i]) + [Line(level, tag, if border then LEFT_BORDER + sub else sub)]
  {
    CutIndex(msg, i);
    var sub := msg[index..index + MAX_LEN];
    WriteStep(level, tag, BodyWrites(border, msg), i, if border then LEFT_BORDER + sub else sub);
  }

  /** The last piece, what is left from `index` on, completes the trace. */
  lemma ChunkLast(level: Level, tag: Option<string>, border: bool, msg: string, index: nat)
    requires |msg| >= MAX_LEN && index == MAX_LEN * (|msg| / MAX_LEN)
    ensures |BodyWrites(border, msg)| == |msg| / MAX_LEN + 1
    ensures index <= |msg|
    ensures var sub := msg[index..|msg|];
      Lines(level, tag, BodyWrites(border, msg))
        == Lines(level, tag, BodyWrites(border, msg)[..|msg| / MAX_LEN]) + [Line(level, tag, if border then LEFT_BORDER + sub else sub)]
  {
    var n := |msg| / MAX_LEN;
    var ws := BodyWrites(border, msg);
    CutIndex(msg, n);
    var sub := msg[index..|msg|];
    WriteStep(level, tag, ws, n, if border then LEFT_BORDER + sub else sub);
    assert ws[..n + 1] == ws;
  }

  // ===========================================================================
  // The static state of LogUtils
  // ===========================================================================

  class Logger {
    var logSwitch: bool
    var globalTag: Option<string>
    var tagIsSpace: bool
    var headSwitch: bool
    var fileSwitch: bool
    var borderSwitch: bool
    var logFilter: int
    var dir: Option<string>
    var defaultDir: Option<string>

    var console: seq<ConsoleLine>
    var pending: seq<FileTask>
    var executorStarted: bool
    var fs: FileSystem

    function Cfg(): Config
      reads this
    {
      Config(logSwitch, globalTag, tagIsSpace, headSwitch, fileSwitch, borderSwitch, logFilter, dir, defaultDir)
    }

    function Out(): Sinks
      reads this
    {
      Sinks(console, pending, executorStarted, fs)
    }

    /** The static initialisers, over a given filesystem. */
    constructor (fs0: FileSystem)
      ensures Cfg() == DEFAULT_CONFIG
      ensures Out() == Sinks([], [], false, fs0)
    {
      logSwitch, globalTag, tagIsSpace, headSwitch := true, None, true, true;
      fileSwitch, borderSwitch, logFilter := false, true, 0x01;
      dir, defaultDir := None, None;
      console, pending, executorStarted, fs := [], [], false, fs0;
    }

    /** `print`: one Android `Log` call. */
    method Print(level: Level, tag: Option<string>, text: string)
      modifies this`console
      ensures console == old(console) + [Line(level, tag, text)]
    {
      console := console + [Line(level, tag, text)];
    }

    /** `processContents`; `None` when it throws. */
    method ProcessContents(t: LogType, tag: Option<string>, contents: Option<seq<Option<string>>>,
                           site: CallSite, p: Pretty) returns (r: Option<Processed>)
      ensures r == Process(Cfg(), t, tag, contents, site, p)
    {
      var resolved := ResolveTag(tag, site);
      if resolved.None? {
        return None;
      }
      var body := ContentsBody(t, contents, p);
      var msg := resolved.value.head + body;
      if borderSwitch {
        msg := FrameMessage(msg);
      }
      r := Some(Processed(resolved.value.tag, msg));
    }

    /** The first half of `processContents`: the tag to log under and the head line. */
    method ResolveTag(tag: Option<string>, site: CallSite) returns (r: Option<Resolved>)
      ensures r == Resolve(Cfg(), tag, site)
    {
      var head := "";
      var tg := tag;
      if !tagIsSpace && !headSwitch {
        tg := globalTag;
      } else {
        var cls := SimpleClassName(site.className);
        if cls.None? {
          return None;
        }
        if tagIsSpace {
          var blank := IsSpace(tag);
          if blank {
            tg := Some(cls.value);
          }
        }
        if headSwitch {
          head := HeadLine(site, cls.value);
        }
      }
      r := Some(Resolved(tg, head));
    }

    /** `printLog`: the borders and the message in 4000-character pieces. */
    method PrintLog(level: Level, tag: Option<string>, msg: string)
      modifies this`console
      ensures console == old(console) + Lines(level, tag, PrintTexts(borderSwitch, msg))
    {
      ghost var body := Lines(level, tag, BodyWrites(borderSwitch, msg));
      PrintTextsLines(level, tag, borderSwitch, msg);
      if borderSwitch {
        Print(level, tag, TOP_BORDER);
        PrintPieces(level, tag, msg);
        Print(level, tag, BOTTOM_BORDER);
        Framing(old(console), Line(level, tag, TOP_BORDER), body, Line(level, tag, BOTTOM_BORDER));
      } else {
        PrintPieces(level, tag, msg);
      }
    }

    /** The chunk loop of `printLog`, between the borders. */
    method PrintPieces(level: Level, tag: Option<string>, msg: string)
      modifies this`console
      ensures console == old(console) + Lines(level, tag, BodyWrites(borderSwitch, msg))
    {
      var len := |msg|;
      var countOfSub := len / MAX_LEN;
      if countOfSub > 0 {
        PrintChunks(level, tag, msg, borderSwitch);
      } else {
        ShortMessageOneWrite(borderSwitch, msg);
        Print(level, tag, msg);
        assert [Line(level, tag, msg)] == Lines(level, tag, BodyWrites(borderSwitch, msg));
      }
    }

    /** The chunk loop of `printLog` for a message of at least one full piece. */
    method PrintChunks(level: Level, tag: Option<string>, msg: string, border: bool)
      requires |msg| >= MAX_LEN
      modifies this`console
      ensures console == old(console) + Lines(level, tag, BodyWrites(border, msg))
    {
      var len := |msg|;
      var countOfSub := len / MAX_LEN;
      ChunkFirst(level, tag, border, msg);
      Print(level, tag, msg[..MAX_LEN]);
      var index := MAX_LEN;
      for i := 1 to countOfSub
        invariant index == MAX_LEN * i
        invariant console == old(console) + Lines(level, tag, BodyWrites(border, msg)[..i])
      {
        ChunkNext(level, tag, border, msg, i, index);
        var sub := msg[index..index + MAX_LEN];
        var w := if border then LEFT_BORDER + sub else sub;
        Extend(old(console), Lines(level, tag, BodyWrites(border, msg)[..i]), Line(level, tag, w));
        Print(level, tag, w);
        index := index + MAX_LEN;
      }
      ChunkLast(level, tag, border, msg, index);
      var sub := msg[index..len];
      var w := if border then LEFT_BORDER + sub else sub;
      Extend(old(console), Lines(level, tag, BodyWrites(border, msg)[..countOfSub]), Line(level, tag, w));
      Print(level, tag, w);
    }

    /** `print2File`: checks or creates the day's file and queues the block for the worker. */
    method Print2File(tag: Option<string>, msg: string, c: Clock)
      modifies this`console, this`pending, this`executorStarted, this`fs
      ensures Out() == FileEffect(Cfg(), old(Out()), tag, msg, c)
    {
      var format := Stamp(c);
      var date := format[..5];
      var time := format[6..];
      var fullPath := JStr(if dir.None? then defaultDir else dir) + date + ".txt";
      var (ok, fs1) := CreateOrExistsFile(fs, fullPath);
      fs := fs1;
      if !ok {
        Print(E, tag, "log to " + fullPath + " failed!");
        return;
      }
      var block := "";
      if borderSwitch {
        block := TOP_BORDER + [LINE_SEP] + LEFT_BORDER + time + JStr(tag) + [LINE_SEP] + msg + BOTTOM_BORDER + [LINE_SEP];
      } else {
        block := time + JStr(tag) + [LINE_SEP] + msg + [LINE_SEP];
      }
      block := block + [LINE_SEP];
      if !executorStarted {
        executorStarted := true;
      }
      pending := pending + [FileTask(tag, fullPath, block)];
    }

    /** `log`: `thrown` says that `processContents` threw, which leaves everything as it was. */
    method Log(t: LogType, tag: Option<string>, contents: Option<seq<Option<string>>>,
               site: CallSite, p: Pretty, c: Clock) returns (thrown: bool)
      modifies this`console, this`pending, this`executorStarted, this`fs
      ensures Outcome(thrown, Out()) == LogEffect(Cfg(), old(Out()), t, tag, contents, site, p, c)
    {
      if !logSwitch {
        return false;
      }
      var processed := ProcessContents(t, tag, contents, site, p);
      if processed.None? {
        return true;
      }
      Deliver(t, processed.value.tag, processed.value.msg, c);
      thrown := false;
    }

    /** A standard level at or above the filter: the console, then the file when it is on. */
    method PrintLogAndFile(l: Level, tag: Option<string>, msg: string, c: Clock)
      modifies this`console, this`pending, this`executorStarted, this`fs
      ensures var printed := Printed(Cfg(), old(Out()), l, tag, msg);
        Out() == if fileSwitch then FileEffect(Cfg(), printed, tag, msg, c) else printed
    {
      PrintLog(l, tag, msg);
      if fileSwitch {
        Print2File(tag, msg, c);
      }
    }

    /** The dispatch at the end of `log`, after `processContents` returned. */
    method Deliver(t: LogType, tag: Option<string>, msg: string, c: Clock)
      modifies this`console, this`pending, this`executorStarted, this`fs
      ensures Out() == Delivered(Cfg(), old(Out()), t, tag, msg, c)
    {
      match t {
        case Std(l) =>
          if Flag(l) >= logFilter {
            PrintLogAndFile(l, tag, msg, c);
          }
        case FILE =>
          Print2File(tag, msg, c);
        case JSON =>
          PrintLog(D, tag, msg);
        case XML =>
          PrintLog(D, tag, msg);
      }
    }

    /** The executor's thread runs the oldest queued task. */
    method RunNext()
      requires pending != []
      modifies this`console, this`pending, this`fs
      ensures Out() == Step(old(Out()))
    {
      var task := pending[0];
      pending := pending[1..];
      var written := AppendFile(fs, task.path, task.block);
      if written.Some? {
        fs := written.value;
        Print(D, task.tag, "log to " + task.path + " success!");
      } else {
        Print(E, task.tag, "log to " + task.path + " failed!");
      }
    }

    /** The executor's thread runs until the queue is empty. */
    method RunPending()
      modifies this`console, this`pending, this`fs
      ensures Out() == Drain(old(Out()))
    {
      while pending != []
        invariant Drain(Out()) == Drain(old(Out()))
        decreases |pending|
      {
        RunNext();
      }
    }
  }

  // ===========================================================================
  // Builder
  // ===========================================================================

  /** `LogUtils.Builder`: every setter writes one static field (two for the tag). */
  class Builder {
    const log: Logger

    /** The environment lookups are inputs: the storage state, the external and the internal cache directory. */
    constructor (log: Logger, mounted: bool, externalCacheDir: Option<string>, cacheDir: string)
      modifies log`defaultDir
      ensures this.log == log
      ensures log.Cfg() == old(log.Cfg()).(defaultDir := DefaultDirAfter(old(log.defaultDir), mounted, externalCacheDir, cacheDir))
    {
      this.log := log;
      if log.defaultDir.None? {
        if mounted && externalCacheDir.Some? {
          log.defaultDir := Some(externalCacheDir.value + [FILE_SEP] + "log" + [FILE_SEP]);
        } else {
          log.defaultDir := Some(cacheDir + [FILE_SEP] + "log" + [FILE_SEP]);
        }
      }
    }

    method SetLogSwitch(logSwitch: bool)
      modifies log`logSwitch
      ensures log.Cfg() == old(log.Cfg()).(logSwitch := logSwitch)
    {
      log.logSwitch := logSwitch;
    }

    method SetGlobalTag(tag: Option<string>)
      modifies log`globalTag, log`tagIsSpace
      ensures log.Cfg() == TagSetting(old(log.Cfg()), tag)
    {
      var blank := IsSpace(tag);
      if blank {
        log.globalTag := Some("");
        log.tagIsSpace := true;
      } else {
        log.globalTag := tag;
        log.tagIsSpace := false;
      }
    }

    method SetLogHeadSwitch(headSwitch: bool)
      modifies log`headSwitch
      ensures log.Cfg() == old(log.Cfg()).(headSwitch := headSwitch)
    {
      log.headSwitch := headSwitch;
    }

    method SetLog2FileSwitch(fileSwitch: bool)
      modifies log`fileSwitch
      ensures log.Cfg() == old(log.Cfg()).(fileSwitch := fileSwitch)
    {
      log.fileSwitch := fileSwitch;
    }

    /** `setDir(String)`. */
    method SetDir(dir: Option<string>)
      modifies log`dir
      ensures log.Cfg() == old(log.Cfg()).(dir := DirSetting(dir))
    {
      var blank := IsSpace(dir);
      if blank {
        log.dir := None;
      } else {
        log.dir := if EndsWith(dir.value, FILE_SEP) then dir else Some(dir.value + [FILE_SEP]);
      }
    }

    /** `setDir(File)`. */
    method SetDirFromFile(absolutePath: Option<string>)
      modifies log`dir
      ensures log.Cfg() == old(log.Cfg()).(dir := DirFromFile(absolutePath))
    {
      log.dir := if absolutePath.None? then None else Some(absolutePath.value + [FILE_SEP]);
    }

    method SetBorderSwitch(borderSwitch: bool)
      modifies log`borderSwitch
      ensures log.Cfg() == old(log.Cfg()).(borderSwitch := borderSwitch)
    {
      log.borderSwitch := borderSwitch;
    }

    method SetLogFilter(logFilter: int)
      modifies log`logFilter
      ensures log.Cfg() == old(log.Cfg()).(logFilter := logFilter)
    {
      log.logFilter := logFilter;
    }
  }

  // ===========================================================================
  // Properties: the file sink
  // ===========================================================================

  /** The writable file `p`: the worker can append to it. */
  ghost predicate Writable(fs: FileSystem, p: string) {
    p in fs.nodes && fs.nodes[p].File? && p !in fs.readOnly
  }

  /**
   * `after` is `before` after one `print2File(tag, msg)` at `c`: either the day's
   * file now exists and exactly one block is queued for it, or exactly one
   * failure line is printed and nothing is queued. Only directories and the
   * day's file can have been created; nothing else moved.
   */
  ghost predicate FiledOnce(cfg: Config, before: Sinks, after: Sinks, tag: Option<string>, msg: string, c: Clock) {
    var path := FilePath(cfg.dir, cfg.defaultDir, c);
    && AddsDirsAndFile(before.fs, after.fs, path)
    && (|| (&& after.console == before.console
            && after.pending == before.pending + [FileTask(tag, path, FileBlock(cfg.borderSwitch, TimePart(c), tag, msg))]
            && after.executorStarted
            && path in after.fs.nodes && after.fs.nodes[path].File?)
        || (&& after.console == before.console + [FailedLine(tag, path)]
            && after.pending == before.pending
            && after.executorStarted == before.executorStarted))
  }

  /** Every `print2File` ends in exactly one of its two outcomes, and it queues iff the day's file could be had. */
  lemma FileEffectOnce(cfg: Config, out: Sinks, tag: Option<string>, msg: string, c: Clock)
    ensures FiledOnce(cfg, out, FileEffect(cfg, out, tag, msg, c), tag, msg, c)
    ensures FileEffect(cfg, out, tag, msg, c).pending != out.pending
        <==> CreateOrExistsFile(out.fs, FilePath(cfg.dir, cfg.defaultDir, c)).0
  {
    CreateOrExistsFileSpec(out.fs, FilePath(cfg.dir, cfg.defaultDir, c));
  }

  /** When the day's file already exists it is used as it is: the filesystem is not touched and one block is queued. */
  lemma FileEffectExistingFile(cfg: Config, out: Sinks, tag: Option<string>, msg: string, c: Clock)
    requires var path := FilePath(cfg.dir, cfg.defaultDir, c); path in out.fs.nodes && out.fs.nodes[path].File?
    ensures var path := FilePath(cfg.dir, cfg.defaultDir, c);
      FileEffect(cfg, out, tag, msg, c)
        == out.(executorStarted := true,
                pending := out.pending + [FileTask(tag, path, FileBlock(cfg.borderSwitch, TimePart(c), tag, msg))])
  {
    CreateOrExistsFileExisting(out.fs, FilePath(cfg.dir, cfg.defaultDir, c));
  }

  /** A directory where the day's file should be makes the call fail with one line, and nothing else changes. */
  lemma FileEffectExistingDir(cfg: Config, out: Sinks, tag: Option<string>, msg: string, c: Clock)
    requires var path := FilePath(cfg.dir, cfg.defaultDir, c); path in out.fs.nodes && out.fs.nodes[path].Dir?
    ensures FileEffect(cfg, out, tag, msg, c)
        == out.(console := out.console + [FailedLine(tag, FilePath(cfg.dir, cfg.defaultDir, c))])
  {
    CreateOrExistsFileExisting(out.fs, FilePath(cfg.dir, cfg.defaultDir, c));
  }

  /**
   * Before any `Builder` is made both directories are null, the path is the bare
   * name `"null" + "MM-dd.txt"`, and unless that file already exists the call
   * can only fail.
   */
  lemma NoBuilderNoFile(cfg: Config, out: Sinks, tag: Option<string>, msg: string, c: Clock)
    requires cfg.dir.None? && cfg.defaultDir.None?
    requires FilePath(cfg.dir, cfg.defaultDir, c) !in out.fs.nodes
    ensures FilePath(cfg.dir, cfg.defaultDir, c) == "null" + Two(c.month) + "-" + Two(c.day) + ".txt"
    ensures FileEffect(cfg, out, tag, msg, c)
        == out.(console := out.console + [FailedLine(tag, FilePath(cfg.dir, cfg.defaultDir, c))])
  {
    DatePartIs(c);
    var path := FilePath(cfg.dir, cfg.defaultDir, c);
    var m, d := Two(c.month), Two(c.day);
    assert path == ['n', 'u', 'l', 'l', m[0], m[1], '-', d[0], d[1], '.', 't', 'x', 't'];
    assert SEP !in path;
    CreateOrExistsFileNeedsParent(out.fs, path);
  }

  /** The blocks of `tasks` bound for `p`, in queue order. */
  function BlocksTo(tasks: seq<FileTask>, p: string): string
    decreases |tasks|
  {
    if tasks == [] then "" else (if tasks[0].path == p then tasks[0].block else "") + BlocksTo(tasks[1..], p)
  }

  /** The success report of every task, in queue order. */
  function Successes(tasks: seq<FileTask>): (r: seq<ConsoleLine>)
    ensures |r| == |tasks|
  {
    seq(|tasks|, i requires 0 <= i < |tasks| => SuccessLine(tasks[i].tag, tasks[i].path))
  }

  /**
   * When every queued task targets a writable file, the worker appends each
   * file's blocks in the order they were queued, reports one success per task
   * in that order, and leaves every other entry and the queue empty.
   */
  lemma DrainAppendsInOrder(out: Sinks)
    requires forall k :: 0 <= k < |out.pending| ==> Writable(out.fs, out.pending[k].path)
    ensures Drain(out).pending == []
    ensures Drain(out).executorStarted == out.executorStarted
    ensures Drain(out).console == out.console + Successes(out.pending)
    ensures Drain(out).fs.readOnly == out.fs.readOnly && Drain(out).fs.nodes.Keys == out.fs.nodes.Keys
    ensures forall q :: q in out.fs.nodes && out.fs.nodes[q].File? ==>
              Drain(out).fs.nodes[q] == File(out.fs.nodes[q].contents + BlocksTo(out.pending, q))
    ensures forall q :: q in out.fs.nodes && !out.fs.nodes[q].File? ==> Drain(out).fs.nodes[q] == out.fs.nodes[q]
  {
    DrainReports(out);
    DrainFileContents(out);
    forall q | q in out.fs.nodes && out.fs.nodes[q].File? && !Writable(out.fs, q)
      ensures BlocksTo(out.pending, q) == ""
    {
      BlocksToUntargeted(out.pending, q);
    }
  }

  /** The queue half of `DrainAppendsInOrder`: the queue empties and every task reports success, in order. */
  lemma {:induction false} DrainReports(out: Sinks)
    requires forall k :: 0 <= k < |out.pending| ==> Writable(out.fs, out.pending[k].path)
    ensures Drain(out).pending == []
    ensures Drain(out).executorStarted == out.executorStarted
    ensures Drain(out).console == out.console + Successes(out.pending)
    ensures Drain(out).fs.readOnly == out.fs.readOnly && Drain(out).fs.nodes.Keys == out.fs.nodes.Keys
    decreases |out.pending|
  {
    if out.pending != [] {
      var task := out.pending[0];
      var s := Step(out);
      StepWritable(out);
      DrainReports(s);
      assert Drain(out) == Drain(s);
      assert Successes(out.pending) == [SuccessLine(task.tag, task.path)] + Successes(out.pending[1..]);
    }
  }

  /**
   * The file half, for any queue: every writable file ends with its own
   * blocks in queue order, whatever the other tasks do; every other existing
   * entry stays as it was.
   */
  lemma DrainFileContents(out: Sinks)
    ensures Drain(out).fs.readOnly == out.fs.readOnly
    ensures forall q :: Writable(out.fs, q) ==>
              q in Drain(out).fs.nodes && Drain(out).fs.nodes[q] == File(out.fs.nodes[q].contents + BlocksTo(out.pending, q))
    ensures forall q :: q in out.fs.nodes && !Writable(out.fs, q) ==>
              q in Drain(out).fs.nodes && Drain(out).fs.nodes[q] == out.fs.nodes[q]
  {
    DrainKeepsReadOnly(out);
    forall q | q in out.fs.nodes
      ensures q in Drain(out).fs.nodes
      ensures Drain(out).fs.nodes[q] == if Writable(out.fs, q) then File(out.fs.nodes[q].contents + BlocksTo(out.pending, q)) else out.fs.nodes[q]
    {
      DrainEntry(out, q);
    }
  }

  /** The worker never changes which paths are read-only. */
  lemma {:induction false} DrainKeepsReadOnly(out: Sinks)
    ensures Drain(out).fs.readOnly == out.fs.readOnly
    decreases |out.pending|
  {
    if out.pending != [] {
      DrainKeepsReadOnly(Step(out));
    }
  }

  /**
   * What the worker leaves at one existing path `q`, for any queue: a writable
   * file gains exactly the blocks queued for it, in order; anything else stays.
   */
  lemma DrainEntry(out: Sinks, q: string)
    requires q in out.fs.nodes
    ensures q in Drain(out).fs.nodes
    ensures Drain(out).fs.nodes[q] == if Writable(out.fs, q) then File(out.fs.nodes[q].contents + BlocksTo(out.pending, q)) else out.fs.nodes[q]
  {
    if Writable(out.fs, q) {
      DrainWritableEntry(out, q);
    } else {
      DrainOtherEntry(out, q);
    }
  }

  /** A writable file gains exactly the blocks queued for it, in order, whatever the other tasks do. */
  lemma {:induction false} DrainWritableEntry(out: Sinks, q: string)
    requires Writable(out.fs, q)
    ensures q in Drain(out).fs.nodes
    ensures Drain(out).fs.nodes[q] == File(out.fs.nodes[q].contents + BlocksTo(out.pending, q))
    decreases |out.pending|
  {
    if out.pending != [] {
      var task := out.pending[0];
      var own := if task.path == q then task.block else "";
      StepWritableEntry(out, q);
      DrainWritableEntry(Step(out), q);
      DrainUnfold(out);
      BlocksToCons(out.pending, q);
      var before := out.fs.nodes[q].contents;
      var rest := BlocksTo(out.pending[1..], q);
      assert before + own + rest == before + (own + rest);
    }
  }

  /** One worker step keeps a writable file writable and adds the first task's block when it is its target. */
  lemma StepWritableEntry(out: Sinks, q: string)
    requires out.pending != [] && Writable(out.fs, q)
    ensures Writable(Step(out).fs, q)
    ensures Step(out).fs.nodes[q].contents
         == out.fs.nodes[q].contents + (if out.pending[0].path == q then out.pending[0].block else "")
  {
    StepEntry(out, q);
  }

  /** The worker's run is one step followed by the rest of the run. */
  lemma DrainUnfold(out: Sinks)
    requires out.pending != []
    ensures Drain(out) == Drain(Step(out)) && Step(out).pending == out.pending[1..]
  {
  }

  /** The blocks for `q` are the first task's (when it targets `q`) and then the others'. */
  lemma BlocksToCons(tasks: seq<FileTask>, q: string)
    requires tasks != []
    ensures BlocksTo(tasks, q) == (if tasks[0].path == q then tasks[0].block else "") + BlocksTo(tasks[1..], q)
  {
  }

  /** An existing entry the worker cannot append to stays as it was. */
  lemma {:induction false} DrainOtherEntry(out: Sinks, q: string)
    requires q in out.fs.nodes && !Writable(out.fs, q)
    ensures q in Drain(out).fs.nodes
    ensures Drain(out).fs.nodes[q] == out.fs.nodes[q]
    decreases |out.pending|
  {
    if out.pending != [] {
      var s := Step(out);
      StepEntry(out, q);
      assert s.pending == out.pending[1..];
      DrainOtherEntry(s, q);
      assert Drain(out) == Drain(s);
    }
  }

  /**
   * One worker step at an existing path `q`: when `q` is the writable target
   * it gains the block, otherwise it stays; nothing is removed and the
   * read-only paths are the same.
   */
  lemma StepEntry(out: Sinks, q: string)
    requires out.pending != [] && q in out.fs.nodes
    ensures var s, t := Step(out), out.pending[0];
      && s.fs.readOnly == out.fs.readOnly
      && q in s.fs.nodes
      && s.fs.nodes[q] == if q == t.path && Writable(out.fs, q) then File(out.fs.nodes[q].contents + t.block) else out.fs.nodes[q]
  {
    var t := out.pending[0];
    if Writable(out.fs, t.path) {
      AppendFileExtends(out.fs, t.path, t.block);
    }
  }

  /** A path no task targets gets no blocks. */
  lemma {:induction false} BlocksToUntargeted(tasks: seq<FileTask>, q: string)
    requires forall k :: 0 <= k < |tasks| ==> tasks[k].path != q
    ensures BlocksTo(tasks, q) == ""
    decreases |tasks|
  {
    if tasks != [] {
      BlocksToUntargeted(tasks[1..], q);
    }
  }

  /** One worker step on a writable target appends the block, reports success, and keeps the other targets writable. */
  lemma StepWritable(out: Sinks)
    requires out.pending != []
    requires forall k :: 0 <= k < |out.pending| ==> Writable(out.fs, out.pending[k].path)
    ensures var s, t := Step(out), out.pending[0];
      && Writable(out.fs, t.path)
      && s.pending == out.pending[1..]
      && s.executorStarted == out.executorStarted
      && s.console == out.console + [SuccessLine(t.tag, t.path)]
      && s.fs == out.fs.(nodes := out.fs.nodes[t.path := File(out.fs.nodes[t.path].contents + t.block)])
      && forall k :: 0 <= k < |s.pending| ==> Writable(s.fs, s.pending[k].path)
  {
    var t := out.pending[0];
    assert Writable(out.fs, t.path);
    AppendFileExtends(out.fs, t.path, t.block);
    var s := Step(out);
    forall k | 0 <= k < |s.pending|
      ensures Writable(s.fs, s.pending[k].path)
    {
      assert s.pending[k] == out.pending[k + 1];
    }
  }

  /** The common case, one day's file: its contents grow by the queued blocks, one after the other. */
  lemma DrainOneFile(out: Sinks, p: string)
    requires Writable(out.fs, p)
    requires forall k :: 0 <= k < |out.pending| ==> out.pending[k].path == p
    ensures p in Drain(out).fs.nodes
    ensures Drain(out).fs.nodes[p] == File(out.fs.nodes[p].contents + BlocksTo(out.pending, p))
    ensures Drain(out).console == out.console + Successes(out.pending)
  {
    DrainAppendsInOrder(out);
  }

  // ===========================================================================
  // Properties: dispatch of log
  // ===========================================================================

  /** With the master switch off a log call neither prints, files nor throws. */
  lemma LogSwitchOff(cfg: Config, out: Sinks, t: LogType, tag: Option<string>, contents: Option<seq<Option<string>>>,
                     site: CallSite, p: Pretty, c: Clock)
    requires !cfg.logSwitch
    ensures LogEffect(cfg, out, t, tag, contents, site, p, c) == Outcome(false, out)
  {
  }

  /** A log call throws exactly when the caller's class name cannot be cut, and then nothing is emitted. */
  lemma ThrowsLeavesState(cfg: Config, out: Sinks, t: LogType, tag: Option<string>, contents: Option<seq<Option<string>>>,
                          site: CallSite, p: Pretty, c: Clock)
    ensures LogEffect(cfg, out, t, tag, contents, site, p, c).thrown
        <==> cfg.logSwitch && (cfg.tagIsSpace || cfg.headSwitch) && SimpleClassName(site.className).None?
    ensures LogEffect(cfg, out, t, tag, contents, site, p, c).thrown ==> LogEffect(cfg, out, t, tag, contents, site, p, c).out == out
  {
    ResolveThrows(cfg, tag, site);
  }

  /** A severity below the filter emits nothing. */
  lemma FilteredOut(cfg: Config, out: Sinks, l: Level, tag: Option<string>, contents: Option<seq<Option<string>>>,
                    site: CallSite, p: Pretty, c: Clock)
    requires Flag(l) < cfg.logFilter
    ensures LogEffect(cfg, out, Std(l), tag, contents, site, p, c).out == out
  {
  }

  /**
   * A severity at or above the filter prints the rendered message once at its
   * own level and then, iff the file switch is on, files it once.
   */
  lemma StdAtOrAboveFilter(cfg: Config, out: Sinks, l: Level, tag: Option<string>, contents: Option<seq<Option<string>>>,
                           site: CallSite, p: Pretty, c: Clock)
    requires cfg.logSwitch && Flag(l) >= cfg.logFilter
    requires Process(cfg, Std(l), tag, contents, site, p).Some?
    ensures var pr := Process(cfg, Std(l), tag, contents, site, p).value;
      var o := LogEffect(cfg, out, Std(l), tag, contents, site, p, c);
      var printed := out.(console := out.console + Lines(l, pr.tag, PrintTexts(cfg.borderSwitch, pr.msg)));
      && !o.thrown
      && (!cfg.fileSwitch ==> o.out == printed)
      && (cfg.fileSwitch ==> FiledOnce(cfg, printed, o.out, pr.tag, pr.msg, c))
  {
    var pr := Process(cfg, Std(l), tag, contents, site, p).value;
    var printed := out.(console := out.console + Lines(l, pr.tag, PrintTexts(cfg.borderSwitch, pr.msg)));
    FileEffectOnce(cfg, printed, pr.tag, pr.msg, c);
  }

  /** FILE goes only to the file sink: nothing is printed besides a possible failure line. */
  lemma FileOnly(cfg: Config, out: Sinks, tag: Option<string>, contents: Option<seq<Option<string>>>,
                 site: CallSite, p: Pretty, c: Clock)
    requires cfg.logSwitch && Process(cfg, FILE, tag, contents, site, p).Some?
    ensures var pr := Process(cfg, FILE, tag, contents, site, p).value;
      var o := LogEffect(cfg, out, FILE, tag, contents, site, p, c);
      !o.thrown && FiledOnce(cfg, out, o.out, pr.tag, pr.msg, c)
  {
    var pr := Process(cfg, FILE, tag, contents, site, p).value;
    FileEffectOnce(cfg, out, pr.tag, pr.msg, c);
  }

  /** JSON and XML print at level D whatever the filter and the file switch, and never reach the file sink. */
  lemma JsonXmlAtDebug(cfg: Config, out: Sinks, t: LogType, tag: Option<string>, contents: Option<seq<Option<string>>>,
                       site: CallSite, p: Pretty, c: Clock)
    requires t == JSON || t == XML
    requires cfg.logSwitch && Process(cfg, t, tag, contents, site, p).Some?
    ensures var pr := Process(cfg, t, tag, contents, site, p).value;
      LogEffect(cfg, out, t, tag, contents, site, p, c)
        == Outcome(false, out.(console := out.console + Lines(D, pr.tag, PrintTexts(cfg.borderSwitch, pr.msg))))
  {
  }

  /** With border and head off, `i("T", "hello")` prints one line, `hello`, at level I under `T`. */
  lemma PlainInfoExample(out: Sinks, site: CallSite, p: Pretty, c: Clock)
    requires SimpleClassName(site.className).Some?
    ensures var cfg := DEFAULT_CONFIG.(headSwitch := false, borderSwitch := false);
      LogEffect(cfg, out, Std(I), Some("T"), Some([Some("hello")]), site, p, c)
        == Outcome(false, out.(console := out.console + [Line(I, Some("T"), "hello")]))
  {
    var cfg := DEFAULT_CONFIG.(headSwitch := false, borderSwitch := false);
    assert !IsWhitespace(Some("T").value[0]);
    assert !IsBlank(Some("T"));
    assert Resolve(cfg, Some("T"), site) == Some(Resolved(Some("T"), ""));
    assert Body(Std(I), Some([Some("hello")]), p) == "hello";
    assert "" + "hello" == "hello";
    assert Process(cfg, Std(I), Some("T"), Some([Some("hello")]), site, p) == Some(Processed(Some("T"), "hello"));
    ShortMessageOneWrite(false, "hello");
    assert PrintTexts(false, "hello") == ["hello"];
    assert Lines(I, Some("T"), ["hello"]) == [Line(I, Some("T"), "hello")];
  }

  /** With the border on, the same call prints the top border, the framed line and the bottom border. */
  lemma BorderedInfoExample(out: Sinks, site: CallSite, p: Pretty, c: Clock)
    requires SimpleClassName(site.className).Some?
    ensures var cfg := DEFAULT_CONFIG.(headSwitch := false);
      LogEffect(cfg, out, Std(I), Some("T"), Some([Some("hello")]), site, p, c)
        == Outcome(false, out.(console := out.console
             + [Line(I, Some("T"), TOP_BORDER), Line(I, Some("T"), "║ hello\n"), Line(I, Some("T"), BOTTOM_BORDER)]))
  {
    var cfg := DEFAULT_CONFIG.(headSwitch := false);
    assert !IsWhitespace(Some("T").value[0]);
    assert !IsBlank(Some("T"));
    assert Resolve(cfg, Some("T"), site) == Some(Resolved(Some("T"), ""));
    assert Body(Std(I), Some([Some("hello")]), p) == "hello";
    assert "" + "hello" == "hello";
    FramedOneLine("hello");
    var framed := LEFT_BORDER + "hello" + [LINE_SEP];
    assert framed == "║ hello\n";
    assert Process(cfg, Std(I), Some("T"), Some([Some("hello")]), site, p) == Some(Processed(Some("T"), framed));
    ShortMessageOneWrite(true, framed);
    assert PrintTexts(true, framed) == [TOP_BORDER, framed, BOTTOM_BORDER];
    assert Lines(I, Some("T"), [TOP_BORDER, framed, BOTTOM_BORDER])
        == [Line(I, Some("T"), TOP_BORDER), Line(I, Some("T"), framed), Line(I, Some("T"), BOTTOM_BORDER)];
  }

  // ===========================================================================
  // Properties: the Builder's settings
  // ===========================================================================

  /** The first `Builder` fixes `defaultDir`, ending in `/log/`; later ones keep it. */
  lemma DefaultDirAssignedOnce(current: Option<string>, mounted: bool, externalCacheDir: Option<string>, cacheDir: string,
                               mounted2: bool, externalCacheDir2: Option<string>, cacheDir2: string)
    ensures var first := DefaultDirAfter(current, mounted, externalCacheDir, cacheDir);
      && first.Some?
      && (current.Some? ==> first == current)
      && (current.None? ==> EndsWith(first.value, FILE_SEP) && |first.value| >= 5
                            && first.value[|first.value| - 5..] == "/log/")
      && DefaultDirAfter(first, mounted2, externalCacheDir2, cacheDir2) == first
  {
  }

  /**
   * `setDir(File)`: null gives null; otherwise the absolute path followed by
   * exactly one separator, so the path can be read back from the setting.
   */
  lemma DirFromFileSpec(absolutePath: Option<string>)
    ensures DirFromFile(absolutePath).None? <==> absolutePath.None?
    ensures absolutePath.Some? ==>
              EndsWith(DirFromFile(absolutePath).value, FILE_SEP)
              && DirFromFile(absolutePath).value[..|absolutePath.value|] == absolutePath.value
              && |DirFromFile(absolutePath).value| == |absolutePath.value| + 1
  {
  }

  /** `setDir`: null exactly for a blank path, otherwise the path terminated by one separator; idempotent. */
  lemma DirSettingSpec(dir: Option<string>)
    ensures DirSetting(dir).None? <==> IsBlank(dir)
    ensures DirSetting(dir).Some? ==>
              EndsWith(DirSetting(dir).value, FILE_SEP)
              && (DirSetting(dir).value == dir.value || DirSetting(dir).value == dir.value + [FILE_SEP])
    ensures dir.Some? && EndsWith(dir.value, FILE_SEP) ==> DirSetting(dir) == dir
    ensures DirSetting(DirSetting(dir)) == DirSetting(dir)
  {
    if dir.Some? && EndsWith(dir.value, FILE_SEP) {
      assert !IsWhitespace(dir.value[|dir.value| - 1]);
    }
    var r := DirSetting(dir);
    if r.Some? {
      assert !IsWhitespace(r.value[|r.value| - 1]);
    }
  }

  /** `setGlobalTag`: the tag is never left null, and `tagIsSpace` records exactly whether it was blank. */
  lemma TagSettingSpec(cfg: Config, tag: Option<string>)
    ensures TagSetting(cfg, tag).tagIsSpace <==> IsBlank(tag)
    ensures TagSetting(cfg, tag).globalTag == if IsBlank(tag) then Some("") else tag
    ensures TagSetting(cfg, tag).globalTag.Some?
    ensures TagSetting(cfg, tag).(globalTag := cfg.globalTag, tagIsSpace := cfg.tagIsSpace) == cfg
  {
  }

  /** A non-blank global tag with the head off replaces whatever tag a call passes. */
  lemma GlobalTagOverrides(cfg: Config, g: string, tag: Option<string>, site: CallSite)
    requires !IsBlank(Some(g)) && !cfg.headSwitch
    ensures Resolve(TagSetting(cfg, Some(g)), tag, site) == Some(Resolved(Some(g), ""))
  {
  }

  /** A blank global tag lets a blank call tag fall back to the caller's class name. */
  lemma BlankGlobalTagUsesClass(cfg: Config, g: Option<string>, tag: Option<string>, site: CallSite)
    requires IsBlank(g) && IsBlank(tag) && SimpleClassName(site.className).Some?
    ensures Resolve(TagSetting(cfg, g), tag, site).Some?
    ensures Resolve(TagSetting(cfg, g), tag, site).value.tag == SimpleClassName(site.className)
  {
  }
}
