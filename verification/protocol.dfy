/**
 * The fixed vocabulary of the text protocol: the ordered list of recognised
 * prefixes, the two sentinels that start every reply of the server, the sink
 * directories and the length budget.
 */
module Protocol {
  import opened Strings

  /** The eight recognised prefixes, one per handler. */
  datatype Prefix =
    | ToOperator    // L:>P, a message to the operator
    | Reflection    // L:>L, a reflection kept in memory
    | Diary         // !PAMIETNIK!, a diary entry
    | ImagePrompt   // !OBRAZEK!, an image description
    | Command       // L:>CMD, a shell command
    | LoadModule    // %LOAD%, read a stored file back
    | Message       // L:>WIA, a message for the 'wiadomosci' module
    | Action        // L:>AKC, data for the 'akcje' module

  function Literal(p: Prefix): string
  {
    match p
    case ToOperator => "L:>P"
    case Reflection => "L:>L"
    case Diary => "!PAMIETNIK!"
    case ImagePrompt => "!OBRAZEK!"
    case Command => "L:>CMD"
    case LoadModule => "%LOAD%"
    case Message => "L:>WIA"
    case Action => "L:>AKC"
  }

  /** `ALLOWED_PREFIXES`, in the order the router tries them. */
  const AllowedPrefixes: seq<Prefix> :=
    [ToOperator, Reflection, Diary, ImagePrompt, Command, LoadModule, Message, Action]

  /** Every reply the server sends starts with one of these two. */
  const StatusSentinel: string := "REQ:>STATUS"
  const ErrorSentinel: string := "ERR:>LOG"

  /** `os.path.join("memory", sub)` on POSIX: a directory below `memory`. */
  function InMemory(sub: string): string
  {
    "memory" + "/" + sub
  }

  /** The sink directories, relative to the working directory. */
  const MessagesToMeDir: string := InMemory("wiadomosci_do_ciebie")
  const MemoryDir: string := InMemory("rozmyslania")
  const DiaryDir: string := InMemory("pamietniki")
  const ImagesDir: string := InMemory("obrazy")
  const MessagesDir: string := InMemory("wiadomosci")
  const ActionsDir: string := InMemory("akcje")
  /** `os.path.join("logs", "server_log")`. */
  const LogsDir: string := "logs/server_log"

  /** The directory below `memory` each writing handler stores its content in. */
  function SubDirectory(p: Prefix): string
  {
    match p
    case ToOperator => "wiadomosci_do_ciebie"
    case Reflection => "rozmyslania"
    case Diary => "pamietniki"
    case ImagePrompt => "obrazy"
    case Message => "wiadomosci"
    case Action => "akcje"
    case Command => ""
    case LoadModule => ""
  }

  /** The directory each writing handler stores its content in. */
  function Directory(p: Prefix): string
  {
    match p
    case ToOperator => MessagesToMeDir
    case Reflection => MemoryDir
    case Diary => DiaryDir
    case ImagePrompt => ImagesDir
    case Message => MessagesDir
    case Action => ActionsDir
    case Command => ""
    case LoadModule => ""
  }

  /** Every message on the channel is kept under this many code points, less a margin for headers. */
  const SafetyMargin: nat := 200
  const MaxTotalLength: nat := 4096
  const MaxContentLength: nat := MaxTotalLength - SafetyMargin

  // ---------------------------------------------------------------------
  // Lemmas

  lemma StartsWithBoth(s: string, a: string, b: string)
    requires StartsWith(s, a) && StartsWith(s, b) && |a| <= |b|
    ensures StartsWith(b, a)
  {
    assert b[..|a|] == s[..|b|][..|a|];
  }

  /** The vocabulary lists every prefix once. */
  lemma AllowedPrefixesComplete(p: Prefix)
    ensures p in AllowedPrefixes
    ensures forall i, j :: 0 <= i < j < |AllowedPrefixes| ==> AllowedPrefixes[i] != AllowedPrefixes[j]
  {
  }

  lemma {:induction false} LiteralsPrefixFree(p: Prefix, q: Prefix)
    requires StartsWith(Literal(q), Literal(p))
    ensures p == q
  {
    var a, b := Literal(p), Literal(q);
    assert b[..|a|] == a;
    assert a[0] == b[0];
    assert |a| >= 4 ==> a[1] == b[1] && a[3] == b[3];
    match q
    case ToOperator =>
    case Reflection =>
    case Diary =>
    case ImagePrompt =>
    case Command =>
    case LoadModule =>
    case Message =>
    case Action =>
  }

  /**
   * No literal is a prefix of another, so a text starts with at most one of
   * them and the order of the vocabulary never decides which one is used.
   */
  lemma PrefixesUnambiguous(s: string, p: Prefix, q: Prefix)
    requires StartsWith(s, Literal(p)) && StartsWith(s, Literal(q))
    ensures p == q
  {
    if |Literal(p)| <= |Literal(q)| {
      StartsWithBoth(s, Literal(p), Literal(q));
      LiteralsPrefixFree(p, q);
    } else {
      StartsWithBoth(s, Literal(q), Literal(p));
      LiteralsPrefixFree(q, p);
    }
  }

  /** A text that starts with a prefix of the vocabulary starts with neither sentinel. */
  lemma PrefixIsNoSentinel(s: string, p: Prefix)
    requires StartsWith(s, Literal(p))
    ensures !StartsWith(s, StatusSentinel) && !StartsWith(s, ErrorSentinel)
  {
    assert s[0] == Literal(p)[0];
  }
}
