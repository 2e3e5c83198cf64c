/**
 * The eight handlers behind the prefixes. Each takes the extracted content
 * and returns the reply line; five of them also store the content in a text
 * sink. The file system is a map from absolute, normalised path to the text
 * stored there; the clock, the working directory, the shell and failing
 * files are inputs (`Env`).
 */
module Handlers {
  import opened Strings
  import opened Wrappers
  import opened Paths
  import opened Protocol

  /** The files on disk: normalised absolute path to the text stored there. */
  type Files = map<string, string>

  /** The clock: `%Y-%m-%d` and `%H%M%S` of `datetime.now()`. */
  datatype Stamp = Stamp(date: string, time: string)

  /**
   * What the shell reports for a command run with a 30 second timeout: it
   * exited with a status and its combined output, it timed out, or running
   * it raised some other error.
   */
  datatype CmdOutcome = Exited(code: int, output: string) | TimedOut | Crashed(message: string)

  /**
   * A run of a shell command: what the shell reports, and the files as the
   * command left them (`shell=True` runs anything, writing files included).
   */
  datatype ShellRun = ShellRun(outcome: CmdOutcome, files: Files)

  /**
   * Everything a handler reads besides its content: `os.getcwd()`, the clock,
   * the shell (run on a command in the current files), and the files whose
   * opening for writing or reading fails.
   */
  datatype Env = Env(
    cwd: string,
    now: Stamp,
    run: (string, Files) -> ShellRun,
    unwritable: set<string>,
    unreadable: set<string>)

  /**
   * What handling a message ends in: an exception that escapes (a sink could
   * not be opened), or a reply (`None` when nothing is to be sent) with the
   * files afterwards.
   */
  datatype Outcome = Raised | Done(reply: Option<string>, files: Files)

  // ---------------------------------------------------------------------
  // Reply lines

  /** How every status line and every error line of the handlers begins. */
  const StatusLead: string := StatusSentinel + " - L:[notif] <_> "
  const ErrorLead: string := ErrorSentinel + " <_> Error: "

  function StatusLine(text: string): (r: string)
    ensures StartsWith(r, StatusLead) && r[|StatusLead|..] == text
  {
    StatusLead + text
  }

  function ErrorLine(text: string): (r: string)
    ensures StartsWith(r, ErrorLead) && r[|ErrorLead|..] == text
  {
    ErrorLead + text
  }

  /** The confirmation each writing handler sends after its status lead. */
  function StatusText(p: Prefix): string
  {
    match p
    case ToOperator => "L:>P Wiadomość wysłana do Promyka."
    case Reflection => "L:>L Aktywne – Zapisane w pamięci."
    case Diary => "!PAMIETNIK! Wiadomość zapisana w pamiętniku."
    case ImagePrompt => "!OBRAZEK! prompt zapisany jako opis obrazu."
    case Message => "L:>WIA Wiadomość zapisana w module 'wiadomosci'."
    case Action => "L:>AKC Dane zapisane w module 'akcje'."
    case Command => ""
    case LoadModule => ""
  }

  const CommandDone: string := "L:>CMD wykonane: "
  const AccessDenied: string := ErrorLine("Dostęp zabroniony. " + "Próba wczytania pliku spoza dozwolonych katalogów.")

  function TooLong(name: string): string
  {
    ErrorLine("Zawartość pliku " + name + " jest zbyt długa do przesłania.")
  }

  function ReadFailed(name: string): string
  {
    ErrorLine("Nie udało się wczytać pliku " + name + ".")
  }

  function NotFound(name: string): string
  {
    ErrorLine("Plik " + name + " nie istnieje lub nie jest plikiem.")
  }

  function Loaded(name: string, text: string): string
  {
    StatusLine("%LOAD% – Wczytano moduł: " + name + "\nTreść:\n" + text)
  }

  // ---------------------------------------------------------------------
  // The sinks

  /** `strftime("%Y-%m-%d-%H%M%S")`: the name of a create-mode file. */
  function StampName(now: Stamp): string
  {
    now.date + "-" + now.time
  }

  /** What a create-mode handler writes: the content, then a rule of 40 `rule` characters. */
  function NoteText(content: string, rule: char): string
  {
    content + "\n" + Repeat(rule, 40) + "\n"
  }

  /** What the diary handler appends to the day's file. */
  function DiaryEntry(time: string, content: string): string
  {
    "\nWpis z " + time + ":\n" + content + "\n" + Repeat('=', 40) + "\n"
  }

  /**
   * The file a handler opens, as the path it names relative to the working
   * directory: the day's file for the diary, a file named by the clock for
   * the others; the command and load handlers open none.
   */
  function SinkName(p: Prefix, now: Stamp): string
  {
    if p == Command || p == LoadModule then ""
    else JoinPath(Directory(p), SinkFile(p, now))
  }

  /** The name of the file a writing handler opens. */
  function SinkFile(p: Prefix, now: Stamp): string
  {
    if p == Diary then now.date + ".txt" else StampName(now) + ".txt"
  }

  /** The prefixes whose handler writes a file. */
  predicate Writes(p: Prefix)
  {
    p != Command && p != LoadModule
  }

  /** The absolute path of the file a handler opens. */
  function SinkPath(p: Prefix, env: Env): string
  {
    AbsPath(env.cwd, SinkName(p, env.now))
  }

  /** The character of the rule under a create-mode note. */
  function Rule(p: Prefix): char
  {
    if p == Reflection || p == ImagePrompt then '=' else '-'
  }

  /**
   * A create-mode handler (`open(..., "w")`): the file named by the clock is
   * replaced by the note; opening it may raise.
   */
  function CreateNote(p: Prefix, content: string, env: Env, files: Files): Outcome
  {
    var path := SinkPath(p, env);
    if path in env.unwritable then Raised
    else Done(Some(StatusLine(StatusText(p))), files[path := NoteText(content, Rule(p))])
  }

  /** The diary handler (`open(..., "a")`): the entry is appended to the day's file. */
  function AppendDiary(content: string, env: Env, files: Files): Outcome
  {
    var path := SinkPath(Diary, env);
    if path in env.unwritable then Raised
    else
      var before := if path in files then files[path] else "";
      Done(Some(StatusLine(StatusText(Diary))), files[path := before + DiaryEntry(env.now.time, content)])
  }

  // ---------------------------------------------------------------------
  // L:>CMD

  /** The text `process_CMD` puts after its status line for each shell outcome. */
  function CmdResult(o: CmdOutcome): string
  {
    match o
    case Exited(code, output) =>
      if code == 0 then output else FailureText(code, output)
    case TimedOut => "Command timed out after 30 seconds."
    case Crashed(message) => "An unexpected error occurred: " + message
  }

  /** What `process_CMD` reports for a command that exited with a non-zero status. */
  function FailureText(code: int, output: string): string
  {
    "Command failed with error code " + IntToString(code) + ":\n" + output
  }

  function CmdReply(o: CmdOutcome): string
  {
    StatusLine(CommandDone + CmdResult(o))
  }

  // ---------------------------------------------------------------------
  // %LOAD%

  /**
   * Python's universal-newlines reading: `\r\n` and a lone `\r` both become
   * `\n`.
   */
  function UniversalNewlines(s: string): (r: string)
    ensures '\r' !in r
    ensures |r| <= |s|
  {
    if s == [] then []
    else if s[0] == '\r' then "\n" + UniversalNewlines(if |s| > 1 && s[1] == '\n' then s[2..] else s[1..])
    else [s[0]] + UniversalNewlines(s[1..])
  }

  /**
   * The access rule of %LOAD%: the resolved path, as a string, starts with the
   * resolved `memory` directory, or the name as given starts with
   * `logs/server_log`.
   */
  predicate LoadAllowed(cwd: string, name: string)
  {
    StartsWith(Resolve(cwd, name), Resolve(cwd, "memory")) || StartsWith(name, LogsDir)
  }

  /** `process_LOAD`: the reply to `%LOAD% content`, which names the file with its padding stripped. */
  function LoadReply(content: string, env: Env, files: Files): string
  {
    LoadNamed(Strip(content), env, files)
  }

  /** The reply of `process_LOAD` to the file name `name`. */
  function LoadNamed(name: string, env: Env, files: Files): string
  {
    if !LoadAllowed(env.cwd, name) then AccessDenied
    else
      var path := Resolve(env.cwd, name);
      if path !in files then NotFound(name)
      else if path in env.unreadable then ReadFailed(name)
      else
        var decoded := UniversalNewlines(files[path]);
        var text := decoded[..Min(|decoded|, 2 * MaxContentLength)];
        if |text| > MaxContentLength then TooLong(name)
        else Loaded(name, text[..Min(|text|, MaxContentLength)])
  }

  // ---------------------------------------------------------------------
  // Dispatch

  /** The handler registered for `p`, run on `content`. */
  function Handle(p: Prefix, content: string, env: Env, files: Files): Outcome
  {
    match p
    case Command =>
      var shell := env.run(content, files);
      Done(Some(CmdReply(shell.outcome)), shell.files)
    case LoadModule => Done(Some(LoadReply(content, env, files)), files)
    case Diary => AppendDiary(content, env, files)
    case _ => CreateNote(p, content, env, files)
  }

  // ---------------------------------------------------------------------
  // Lemmas

  /** A reply line: a status line or an error line. */
  predicate IsReplyLine(r: string)
  {
    StartsWith(r, StatusLead) || StartsWith(r, ErrorLead)
  }

  /**
   * What a handler for `p` may do: when it returns, it answers with a reply
   * line; the load handler changes no file, the storing handlers only their
   * own sink, and the command handler whatever its command changes; it raises
   * exactly when its sink cannot be opened.
   */
  predicate HandlerEffect(p: Prefix, env: Env, files: Files, o: Outcome)
  {
    && (o.Done? ==>
         && o.reply.Some? && IsReplyLine(o.reply.value)
         && (Writes(p) ==> SinkPath(p, env) in o.files && o.files == files[SinkPath(p, env) := o.files[SinkPath(p, env)]])
         && (p == LoadModule ==> o.files == files))
    && (o.Raised? <==> Writes(p) && SinkPath(p, env) in env.unwritable)
  }

  /** Every handler keeps to `HandlerEffect`. */
  lemma HandleEffect(p: Prefix, content: string, env: Env, files: Files)
    ensures HandlerEffect(p, env, files, Handle(p, content, env, files))
  {
    match p
    case Command => CommandEffect(content, env, files);
    case LoadModule =>
      LoadEffect(content, env, files);
      assert Handle(p, content, env, files) == Done(Some(LoadReply(content, env, files)), files);
    case Diary => DiaryEffect(content, env, files);
    case ToOperator => CreateNoteEffect(p, content, env, files);
    case Reflection => CreateNoteEffect(p, content, env, files);
    case ImagePrompt => CreateNoteEffect(p, content, env, files);
    case Message => CreateNoteEffect(p, content, env, files);
    case Action => CreateNoteEffect(p, content, env, files);
  }

  lemma LoadNamedIsReplyLine(name: string, env: Env, files: Files)
    ensures IsReplyLine(LoadNamed(name, env, files))
  {
  }

  /**
   * `process_CMD` never raises and always answers with a status line, also
   * when the command fails; the files are those the command left.
   */
  lemma CommandEffect(content: string, env: Env, files: Files)
    ensures HandlerEffect(Command, env, files, Handle(Command, content, env, files))
    ensures var o := Handle(Command, content, env, files);
      o.Done? && o.reply.Some? && StartsWith(o.reply.value, StatusLead)
      && o.files == env.run(content, files).files
  {
    assert StartsWith(CmdReply(env.run(content, files).outcome), StatusLead);
  }

  lemma LoadEffect(content: string, env: Env, files: Files)
    ensures HandlerEffect(LoadModule, env, files, Done(Some(LoadReply(content, env, files)), files))
  {
    LoadNamedIsReplyLine(Strip(content), env, files);
  }

  lemma DiaryEffect(content: string, env: Env, files: Files)
    ensures HandlerEffect(Diary, env, files, Handle(Diary, content, env, files))
  {
  }

  lemma CreateNoteEffect(p: Prefix, content: string, env: Env, files: Files)
    requires Writes(p) && p != Diary
    ensures HandlerEffect(p, env, files, Handle(p, content, env, files))
  {
    assert Handle(p, content, env, files) == CreateNote(p, content, env, files);
  }

  /**
   * A create-mode handler leaves the content and a 40-character rule in its
   * file; the diary handler adds a time-stamped entry after what the day's
   * file held.
   */
  lemma HandleStores(p: Prefix, content: string, env: Env, files: Files)
    requires Writes(p) && Handle(p, content, env, files).Done?
    ensures var stored := Handle(p, content, env, files).files[SinkPath(p, env)];
      match p
      case Diary =>
        var before := if SinkPath(p, env) in files then files[SinkPath(p, env)] else "";
        stored == before + DiaryEntry(env.now.time, content)
      case ToOperator => stored == NoteText(content, '-')
      case Message => stored == NoteText(content, '-')
      case Action => stored == NoteText(content, '-')
      case _ => stored == NoteText(content, '=')
  {
    var o := Handle(p, content, env, files);
    if p != Diary {
      assert o == CreateNote(p, content, env, files);
    }
  }

  // ----- where the sinks are

  /** The clock's strings hold no `/`, as `strftime` gives them. */
  predicate PlainStamp(now: Stamp)
  {
    '/' !in now.date && '/' !in now.time
  }

  lemma PlainFileName(x: string)
    requires '/' !in x
    ensures Plain(x + ".txt")
  {
    assert (x + ".txt")[|x|..] == ".txt";
  }

  /** The directory of a sink is `memory/<its directory>`. */
  lemma DirectoryUnderMemory(p: Prefix)
    requires Writes(p)
    ensures Directory(p) == InMemory(SubDirectory(p))
    ensures Plain(SubDirectory(p)) && SubDirectory(p)[|SubDirectory(p)| - 1] != '/'
  {
  }

  /** `os.path.join(directory, file)` with the directory `memory/<its directory>`. */
  lemma SinkNameComponents(p: Prefix, now: Stamp)
    requires Writes(p) && PlainStamp(now)
    ensures SinkName(p, now) == JoinWith(SinkComponents(p, now), '/')
  {
    var dir, file := SubDirectory(p), SinkFile(p, now);
    DirectoryUnderMemory(p);
    assert Directory(p) == "memory" + "/" + dir;
    JoinPathPlain("memory" + "/" + dir, file);
    assert JoinWith([dir, file], '/') == dir + "/" + file;
    Regroup("memory", "/", dir, "/" + file);
  }

  /**
   * Under a canonical working directory `Render(cwd)` a handler writes to
   * `memory/<its directory>/<file>` below it.
   */
  lemma SinkPathUnderCwd(p: Prefix, cwd: seq<string>, env: Env)
    requires Writes(p) && AllPlain(cwd) && env.cwd == Render(cwd) && PlainStamp(env.now)
    ensures SinkPath(p, env) == Render(cwd + SinkComponents(p, env.now))
    ensures AllPlain(cwd + SinkComponents(p, env.now))
    ensures Resolve(env.cwd, SinkName(p, env.now)) == SinkPath(p, env)
  {
    var comps := SinkComponents(p, env.now);
    SinkComponentsPlain(p, env.now);
    SinkNameComponents(p, env.now);
    JoinWithFirst(comps, '/');
    assert !StartsWith(SinkName(p, env.now), "/");
    ResolveRelative(cwd, SinkName(p, env.now));
    SplitOnJoinWith(comps, '/');
    NormCompsOfPlain(cwd, comps, true);
    JoinPathAbsolute(env.cwd, SinkName(p, env.now));
  }

  /** The components of a sink's path below the working directory. */
  function SinkComponents(p: Prefix, now: Stamp): seq<string>
  {
    ["memory", SubDirectory(p), SinkFile(p, now)]
  }

  lemma SinkComponentsPlain(p: Prefix, now: Stamp)
    requires Writes(p) && PlainStamp(now)
    ensures AllPlain(SinkComponents(p, now))
  {
    assert '/' !in StampName(now);
    PlainFileName(StampName(now));
    PlainFileName(now.date);
    DirectoryUnderMemory(p);
  }

  /** Two different writing handlers never write the same file. */
  lemma SinksDistinct(p: Prefix, q: Prefix, cwd: seq<string>, env: Env)
    requires Writes(p) && Writes(q) && p != q
    requires AllPlain(cwd) && env.cwd == Render(cwd) && PlainStamp(env.now)
    ensures SinkPath(p, env) != SinkPath(q, env)
  {
    SinkPathUnderCwd(p, cwd, env);
    SinkPathUnderCwd(q, cwd, env);
    SubDirectoryInjective(p, q);
    var cp, cq := cwd + SinkComponents(p, env.now), cwd + SinkComponents(q, env.now);
    assert cp[|cwd| + 1] != cq[|cwd| + 1];
    RenderDiffers(cp, cq);
  }

  lemma RenderDiffers(a: seq<string>, b: seq<string>)
    requires AllPlain(a) && AllPlain(b) && a != b
    ensures Render(a) != Render(b)
  {
    if Render(a) == Render(b) {
      RenderInjective(a, b);
    }
  }

  /** Each writing handler has a directory of its own. */
  lemma SubDirectoryInjective(p: Prefix, q: Prefix)
    requires Writes(p) && Writes(q) && p != q
    ensures SubDirectory(p) != SubDirectory(q)
  {
    var a, b := SubDirectory(p), SubDirectory(q);
    assert a[0] != b[0] || |a| != |b|;
  }

  // ----- L:>CMD

  /**
   * The L:>CMD reply carries a failed command's exit status and captured
   * output recoverably: two failures give the same reply only when both
   * agree.
   */
  lemma CmdFailureReplyInjective(c1: int, o1: string, c2: int, o2: string)
    requires c1 != 0 && c2 != 0
    requires CmdReply(Exited(c1, o1)) == CmdReply(Exited(c2, o2))
    ensures c1 == c2 && o1 == o2
  {
    CmdReplySameResult(Exited(c1, o1), Exited(c2, o2));
    FailureTextInjective(c1, o1, c2, o2);
  }

  lemma FailureTextInjective(c1: int, o1: string, c2: int, o2: string)
    requires FailureText(c1, o1) == FailureText(c2, o2)
    ensures c1 == c2 && o1 == o2
  {
    var lead := "Command failed with error code ";
    var t1, t2 := IntToString(c1) + [':'] + ("\n" + o1), IntToString(c2) + [':'] + ("\n" + o2);
    FailureTextParts(c1, o1);
    FailureTextParts(c2, o2);
    LeadCancel(lead, t1, t2);
    SplitAtSeparator(':', IntToString(c1), "\n" + o1, IntToString(c2), "\n" + o2);
    IntToStringRoundTrip(c1);
    IntToStringRoundTrip(c2);
    assert o1 == ("\n" + o1)[1..];
    assert o2 == ("\n" + o2)[1..];
  }

  /** The failure text is its lead, the status, a colon, then a newline and the output. */
  lemma FailureTextParts(code: int, output: string)
    ensures FailureText(code, output)
      == "Command failed with error code " + (IntToString(code) + [':'] + ("\n" + output))
  {
    var lead, digits := "Command failed with error code ", IntToString(code);
    assert ":\n" + output == [':'] + ("\n" + output);
    assert lead + digits + ":\n" + output == lead + (digits + (":\n" + output));
  }

  /** Two L:>CMD replies are equal exactly when their results are. */
  lemma CmdReplySameResult(a: CmdOutcome, b: CmdOutcome)
    ensures CmdReply(a) == CmdReply(b) <==> CmdResult(a) == CmdResult(b)
  {
    var k := |CommandDone|;
    assert CmdReply(a)[|StatusLead|..] == CommandDone + CmdResult(a);
    assert CmdReply(b)[|StatusLead|..] == CommandDone + CmdResult(b);
    assert (CommandDone + CmdResult(a))[k..] == CmdResult(a);
    assert (CommandDone + CmdResult(b))[k..] == CmdResult(b);
  }

  /** A time-out, a failed exit and an unexpected error give three different L:>CMD replies. */
  lemma CmdErrorRepliesDistinct(code: int, output: string, message: string)
    requires code != 0
    ensures CmdReply(TimedOut) != CmdReply(Exited(code, output))
    ensures CmdReply(TimedOut) != CmdReply(Crashed(message))
    ensures CmdReply(Exited(code, output)) != CmdReply(Crashed(message))
  {
    var timedOut, failed, crashed := TimedOut, Exited(code, output), Crashed(message);
    assert CmdReply(timedOut) != CmdReply(failed) by {
      assert CmdResult(timedOut)[8] == 't' && CmdResult(failed)[8] == 'f';
      CmdReplySameResult(timedOut, failed);
    }
    assert CmdReply(timedOut) != CmdReply(crashed) by {
      assert CmdResult(timedOut)[0] == 'C' && CmdResult(crashed)[0] == 'A';
      CmdReplySameResult(timedOut, crashed);
    }
    assert CmdReply(failed) != CmdReply(crashed) by {
      assert CmdResult(failed)[0] == 'C' && CmdResult(crashed)[0] == 'A';
      CmdReplySameResult(failed, crashed);
    }
  }

  // ----- %LOAD%

  lemma {:induction false} UniversalNewlinesKeeps(s: string)
    requires '\r' !in s
    ensures UniversalNewlines(s) == s
  {
    if s != [] {
      UniversalNewlinesKeeps(s[1..]);
    }
  }

  /**
   * %LOAD% refuses exactly the names the access rule rejects, whatever the
   * files are: the rule is checked before the file is looked up.
   */
  lemma LoadDeniedIff(name: string, env: Env, files: Files)
    ensures LoadNamed(name, env, files) == AccessDenied <==> !LoadAllowed(env.cwd, name)
  {
    var r := LoadNamed(name, env, files);
    if LoadAllowed(env.cwd, name) {
      var denial := "Dostęp zabroniony. " + "Próba wczytania pliku spoza dozwolonych katalogów.";
      var path := Resolve(env.cwd, name);
      if path !in files {
        ErrorLinesDiffer("Plik " + name + " nie istnieje lub nie jest plikiem.", denial);
      } else if path in env.unreadable {
        ErrorLinesDiffer("Nie udało się wczytać pliku " + name + ".", denial);
      } else {
        ErrorLinesDiffer("Zawartość pliku " + name + " jest zbyt długa do przesłania.", denial);
        forall text ensures StatusLine(text) != AccessDenied {
          StatusIsNoError(text, denial);
        }
      }
    }
  }

  lemma ErrorLinesDiffer(x: string, y: string)
    requires x != [] && y != [] && x[0] != y[0]
    ensures ErrorLine(x) != ErrorLine(y)
  {
    assert ErrorLine(x)[|ErrorLead|..][0] != ErrorLine(y)[|ErrorLead|..][0];
  }

  lemma StatusIsNoError(x: string, y: string)
    ensures StatusLine(x) != ErrorLine(y)
  {
    assert StatusLine(x)[0] == StatusLead[0] == 'R';
    assert ErrorLine(y)[0] == ErrorLead[0] == 'E';
  }

  /**
   * When the name passes the rule and the file can be read, %LOAD% answers
   * "too long" exactly when the file's text is longer than the content
   * budget, and otherwise sends the whole text inline.
   */
  lemma LoadReadsWholeText(name: string, env: Env, files: Files)
    requires LoadAllowed(env.cwd, name)
    requires Resolve(env.cwd, name) in files && Resolve(env.cwd, name) !in env.unreadable
    ensures var text := UniversalNewlines(files[Resolve(env.cwd, name)]);
      LoadNamed(name, env, files) == if |text| > MaxContentLength then TooLong(name) else Loaded(name, text)
  {
    var r := LoadNamed(name, env, files);
    var decoded := UniversalNewlines(files[Resolve(env.cwd, name)]);
    var text := decoded[..Min(|decoded|, 2 * MaxContentLength)];
    if |decoded| > MaxContentLength {
      assert |text| > MaxContentLength;
      assert r == TooLong(name);
    } else {
      assert text == decoded;
      assert text[..Min(|text|, MaxContentLength)] == decoded;
      assert r == Loaded(name, decoded);
    }
  }

  /** A name that resolves to no stored file gets the "does not exist" error. */
  lemma LoadMissing(name: string, env: Env, files: Files)
    requires LoadAllowed(env.cwd, name) && Resolve(env.cwd, name) !in files
    ensures LoadNamed(name, env, files) == NotFound(name)
  {
  }

  /**
   * For a relative name made of plain components, under a canonical working
   * directory, the access rule is a test on the name's text alone: it starts
   * with `memory` (so a sibling such as `memory_x` passes too) or with
   * `logs/server_log`.
   */
  lemma LoadAllowedPlain(cwd: seq<string>, names: seq<string>)
    requires AllPlain(cwd) && AllPlain(names) && |names| >= 1
    ensures LoadAllowed(Render(cwd), JoinWith(names, '/'))
        <==> StartsWith(JoinWith(names, '/'), "memory") || StartsWith(JoinWith(names, '/'), LogsDir)
  {
    var name := JoinWith(names, '/');
    calc {
      LoadAllowed(Render(cwd), name);
      StartsWith(Resolve(Render(cwd), name), Resolve(Render(cwd), "memory")) || StartsWith(name, LogsDir);
      { ResolvePlain(cwd, names); ResolveMemory(cwd); }
      StartsWith(Render(cwd + names), Render(cwd + ["memory"])) || StartsWith(name, LogsDir);
      { RenderPrefix(cwd, names, "memory"); }
      StartsWith(name, "memory") || StartsWith(name, LogsDir);
    }
  }

  /** The `memory` directory resolves to its component below the working directory. */
  lemma ResolveMemory(cwd: seq<string>)
    requires AllPlain(cwd)
    ensures Resolve(Render(cwd), "memory") == Render(cwd + ["memory"])
  {
    ResolvePlain(cwd, ["memory"]);
    assert JoinWith(["memory"], '/') == "memory";
  }

  /** A relative name of plain components resolves to those components below the working directory. */
  lemma ResolvePlain(cwd: seq<string>, names: seq<string>)
    requires AllPlain(cwd) && AllPlain(names) && |names| >= 1
    ensures Resolve(Render(cwd), JoinWith(names, '/')) == Render(cwd + names)
  {
    var name := JoinWith(names, '/');
    JoinWithFirst(names, '/');
    SplitOnJoinWith(names, '/');
    ResolveRelative(cwd, name);
    NormCompsOfPlain(cwd, names, true);
  }

  /**
   * `memory/..` leaves the memory directory: a name that climbs out of it
   * through `..` is refused unless its own text starts with `memory` or
   * `logs/server_log`.
   */
  lemma LoadTraversalDenied(cwd: seq<string>, names: seq<string>)
    requires AllPlain(cwd) && AllPlain(names) && |names| >= 1
    requires !StartsWith(JoinWith(names, '/'), "memory")
    ensures !LoadAllowed(Render(cwd), JoinWith(["memory", ".."] + names, '/'))
  {
    var name := JoinWith(["memory", ".."] + names, '/');
    assert !StartsWith(name, LogsDir) by {
      JoinWithFirst(["memory", ".."] + names, '/');
      FirstCharDiffers(name, LogsDir);
    }
    calc {
      LoadAllowed(Render(cwd), name);
      StartsWith(Resolve(Render(cwd), name), Resolve(Render(cwd), "memory")) || StartsWith(name, LogsDir);
      { ResolveClimb(cwd, names); ResolveMemory(cwd); }
      StartsWith(Render(cwd + names), Render(cwd + ["memory"]));
      { RenderPrefix(cwd, names, "memory"); }
      StartsWith(JoinWith(names, '/'), "memory");
    }
  }

  /** `memory/../<names>` resolves to `<names>` below the working directory. */
  lemma ResolveClimb(cwd: seq<string>, names: seq<string>)
    requires AllPlain(cwd) && AllPlain(names) && |names| >= 1
    ensures Resolve(Render(cwd), JoinWith(["memory", ".."] + names, '/')) == Render(cwd + names)
  {
    var comps := ["memory", ".."] + names;
    var name := JoinWith(comps, '/');
    calc {
      Resolve(Render(cwd), name);
      { JoinWithFirst(comps, '/'); FirstCharDiffers(name, "/"); ResolveRelative(cwd, name); }
      Render(NormComps(cwd, SplitOn(name, '/'), true));
      { ClimbSplit(names); }
      Render(NormComps(cwd, comps, true));
      { NormCompsAppend(cwd, ["memory", ".."], names, true); }
      Render(NormComps(NormComps(cwd, ["memory", ".."], true), names, true));
      { ClimbBack(cwd); }
      Render(NormComps(cwd, names, true));
      { NormCompsOfPlain(cwd, names, true); }
      Render(cwd + names);
    }
  }

  lemma ClimbSplit(names: seq<string>)
    requires AllPlain(names)
    ensures SplitOn(JoinWith(["memory", ".."] + names, '/'), '/') == ["memory", ".."] + names
  {
    var comps := ["memory", ".."] + names;
    forall k | 0 <= k < |comps|
      ensures '/' !in comps[k]
    {
      if k >= 2 {
        assert comps[k] == names[k - 2];
      }
    }
    SplitOnJoinWith(comps, '/');
  }

  /** `memory` followed by `..` comes back to where it started. */
  lemma ClimbBack(cwd: seq<string>)
    requires AllPlain(cwd)
    ensures NormComps(cwd, ["memory", ".."], true) == cwd
  {
    var up := cwd + ["memory"];
    assert NormStep(cwd, "memory", true) == up;
    assert up[|up| - 1] != "..";
    assert up[..|up| - 1] == cwd;
    assert NormStep(up, "..", true) == cwd;
    assert ["memory", ".."][1..] == [".."];
    assert NormComps(cwd, ["memory", ".."], true) == NormComps(up, [".."], true);
  }
}
