/**
 * The prefix router (`process_incoming_message`): the message is trimmed,
 * the first prefix of the vocabulary it starts with picks the handler, the
 * rest of the message, trimmed, is the handler's content. A message with no
 * prefix is the server's own reply echoed back (answered with nothing) or an
 * unrecognised one (answered with an error).
 */
module Router {
  import opened Strings
  import opened Wrappers
  import opened Protocol
  import opened Handlers

  const UnrecognisedError: string := ErrorLine("Nie rozpoznano prefiksu lub wiadomość jest pusta.")

  function EmptyContentError(p: Prefix): string
  {
    ErrorLine("Pusta zawartość dla prefiksu " + Literal(p) + ".")
  }

  /** Where a message goes. */
  datatype Route =
    | Dispatch(prefix: Prefix, content: string)   // the handler of `prefix` runs on `content`
    | EmptyContent(prefix: Prefix)                 // a prefix with nothing after it
    | OwnReply                                     // a reply of the server itself
    | NoPrefix                                     // nothing the server understands

  /** The position of the first prefix in `prefixes` that `msg` starts with. */
  function FirstMatch(msg: string, prefixes: seq<Prefix>): (r: Option<nat>)
    ensures r.Some? ==> r.value < |prefixes| && StartsWith(msg, Literal(prefixes[r.value]))
  {
    if prefixes == [] then None
    else if StartsWith(msg, Literal(prefixes[0])) then Some(0)
    else match FirstMatch(msg, prefixes[1..])
      case None => None
      case Some(k) =>
        assert prefixes[k + 1] == prefixes[1..][k];
        Some(k + 1)
  }

  /** `msg` starts with none of `prefixes`. */
  predicate NoneMatches(msg: string, prefixes: seq<Prefix>)
  {
    forall j :: 0 <= j < |prefixes| ==> !StartsWith(msg, Literal(prefixes[j]))
  }

  /**
   * The search finds any prefix of the list that fits, whatever its place:
   * since at most one prefix fits, the order of the list never matters.
   */
  lemma {:induction false} FirstMatchFinds(msg: string, prefixes: seq<Prefix>, p: Prefix)
    requires p in prefixes && StartsWith(msg, Literal(p))
    ensures FirstMatch(msg, prefixes).Some? && prefixes[FirstMatch(msg, prefixes).value] == p
  {
    if StartsWith(msg, Literal(prefixes[0])) {
      PrefixesUnambiguous(msg, p, prefixes[0]);
    } else {
      assert p in prefixes[1..];
      FirstMatchFinds(msg, prefixes[1..], p);
    }
  }

  /** The search finds nothing when no prefix of the list fits. */
  lemma {:induction false} FirstMatchNone(msg: string, prefixes: seq<Prefix>)
    requires NoneMatches(msg, prefixes)
    ensures FirstMatch(msg, prefixes) == None
  {
    if prefixes != [] {
      assert !StartsWith(msg, Literal(prefixes[0]));
      assert NoneMatches(msg, prefixes[1..]) by {
        forall j | 0 <= j < |prefixes| - 1
          ensures !StartsWith(msg, Literal(prefixes[1..][j]))
        {
          assert prefixes[1..][j] == prefixes[j + 1];
        }
      }
      FirstMatchNone(msg, prefixes[1..]);
    }
  }

  /** The text after prefix `p` of `msg`, trimmed. */
  function ContentAfter(msg: string, p: Prefix): string
    requires StartsWith(msg, Literal(p))
  {
    Strip(msg[|Literal(p)|..])
  }

  /** How `process_incoming_message` routes `message`. */
  function RouteOf(message: string): Route
  {
    var msg := Strip(message);
    match FirstMatch(msg, AllowedPrefixes)
    case Some(i) =>
      var p := AllowedPrefixes[i];
      var content := ContentAfter(msg, p);
      if content == [] && p != LoadModule then EmptyContent(p) else Dispatch(p, content)
    case None =>
      if StartsWith(msg, StatusSentinel) || StartsWith(msg, ErrorSentinel) then OwnReply else NoPrefix
  }

  /** What `process_incoming_message` ends in: the reply (or none) and the files afterwards. */
  function Process(message: string, env: Env, files: Files): Outcome
  {
    Answer(RouteOf(message), env, files)
  }

  /** What the router does for each route. */
  function Answer(route: Route, env: Env, files: Files): Outcome
  {
    match route
    case Dispatch(p, content) => Handle(p, content, env, files)
    case EmptyContent(p) => Done(Some(EmptyContentError(p)), files)
    case OwnReply => Done(None, files)
    case NoPrefix => Done(Some(UnrecognisedError), files)
  }

  /**
   * The scan of `process_incoming_message` over the vocabulary: the first
   * prefix the trimmed message starts with, if any.
   */
  method ScanPrefixes(msg: string) returns (found: Option<Prefix>)
    ensures found.Some? ==> StartsWith(msg, Literal(found.value))
    ensures found.None? ==> forall p: Prefix :: !StartsWith(msg, Literal(p))
  {
    var i := 0;
    while i < |AllowedPrefixes|
      invariant 0 <= i <= |AllowedPrefixes|
      invariant NoneMatches(msg, AllowedPrefixes[..i])
    {
      var prefix := AllowedPrefixes[i];
      if StartsWith(msg, Literal(prefix)) {
        return Some(prefix);
      }
      NoneMatchesExtend(msg, AllowedPrefixes, i);
      i := i + 1;
    }
    assert AllowedPrefixes[..i] == AllowedPrefixes;
    NoPrefixMatches(msg);
    return None;
  }

  /** `process_incoming_message`: scan, dispatch, and the guard against the server's own replies. */
  method ProcessIncomingMessage(message: string, env: Env, files: Files) returns (outcome: Outcome)
    ensures outcome == Process(message, env, files)
  {
    var msg := Strip(message);
    var processed := false;
    outcome := Done(Some(UnrecognisedError), files);
    var found := ScanPrefixes(msg);
    if found.Some? {
      var prefix := found.value;
      ProcessMatching(message, prefix, env, files);
      var content := Strip(msg[|Literal(prefix)|..]);
      if content == [] && prefix != LoadModule {
        outcome := Done(Some(EmptyContentError(prefix)), files);
        PrefixIsNoSentinel(msg, prefix);
      } else {
        outcome := Handle(prefix, content, env, files);
        processed := true;
      }
    } else {
      ProcessWithoutPrefix(message, env, files);
    }
    if !processed {
      if StartsWith(msg, StatusSentinel) || StartsWith(msg, ErrorSentinel) {
        return Done(None, files);
      }
    }
  }

  // ---------------------------------------------------------------------
  // Lemmas

  /**
   * Whatever prefix a trimmed message starts with is the one the router
   * uses, with the trimmed rest as content; the order of the vocabulary
   * never matters, since at most one prefix fits.
   */
  lemma RouteOfMatching(message: string, p: Prefix)
    requires StartsWith(Strip(message), Literal(p))
    ensures var content := ContentAfter(Strip(message), p);
      RouteOf(message) == if content == [] && p != LoadModule then EmptyContent(p) else Dispatch(p, content)
  {
    var msg := Strip(message);
    AllowedPrefixesComplete(p);
    FirstMatchFinds(msg, AllowedPrefixes, p);
  }

  /** A message whose trimmed text starts with a prefix goes to that prefix's handler. */
  lemma ProcessMatching(message: string, p: Prefix, env: Env, files: Files)
    requires StartsWith(Strip(message), Literal(p))
    ensures var content := ContentAfter(Strip(message), p);
      Process(message, env, files)
        == if content == [] && p != LoadModule then Done(Some(EmptyContentError(p)), files)
           else Handle(p, content, env, files)
  {
    RouteOfMatching(message, p);
    AnswerMatching(p, ContentAfter(Strip(message), p), env, files);
  }

  lemma AnswerMatching(p: Prefix, content: string, env: Env, files: Files)
    ensures Answer(if content == [] && p != LoadModule then EmptyContent(p) else Dispatch(p, content), env, files)
      == if content == [] && p != LoadModule then Done(Some(EmptyContentError(p)), files)
         else Handle(p, content, env, files)
  {
  }

  lemma NoneMatchesExtend(msg: string, prefixes: seq<Prefix>, i: nat)
    requires i < |prefixes| && NoneMatches(msg, prefixes[..i])
    requires !StartsWith(msg, Literal(prefixes[i]))
    ensures NoneMatches(msg, prefixes[..i + 1])
  {
    var longer := prefixes[..i + 1];
    forall j | 0 <= j < |longer|
      ensures !StartsWith(msg, Literal(longer[j]))
    {
      if j < i {
        assert longer[j] == prefixes[..i][j];
      }
    }
  }

  /** No prefix of the vocabulary fits: then no prefix at all fits. */
  lemma NoPrefixMatches(msg: string)
    requires NoneMatches(msg, AllowedPrefixes)
    ensures forall p: Prefix :: !StartsWith(msg, Literal(p))
  {
    forall p: Prefix
      ensures !StartsWith(msg, Literal(p))
    {
      AllowedPrefixesComplete(p);
    }
  }

  /**
   * A message with no prefix is answered with nothing when it starts with a
   * sentinel, and with the "unrecognised" error otherwise; no file changes.
   */
  lemma ProcessWithoutPrefix(message: string, env: Env, files: Files)
    requires forall p: Prefix :: !StartsWith(Strip(message), Literal(p))
    ensures var msg := Strip(message);
      Process(message, env, files)
        == if StartsWith(msg, StatusSentinel) || StartsWith(msg, ErrorSentinel) then Done(None, files)
           else Done(Some(UnrecognisedError), files)
  {
    RouteWithoutPrefix(message);
    AnswerWithoutPrefix(Strip(message), env, files);
  }

  lemma AnswerWithoutPrefix(msg: string, env: Env, files: Files)
    ensures Answer(if StartsWith(msg, StatusSentinel) || StartsWith(msg, ErrorSentinel) then OwnReply else NoPrefix, env, files)
      == if StartsWith(msg, StatusSentinel) || StartsWith(msg, ErrorSentinel) then Done(None, files)
         else Done(Some(UnrecognisedError), files)
  {
  }

  lemma RouteWithoutPrefix(message: string)
    requires forall p: Prefix :: !StartsWith(Strip(message), Literal(p))
    ensures var msg := Strip(message);
      RouteOf(message) == if StartsWith(msg, StatusSentinel) || StartsWith(msg, ErrorSentinel) then OwnReply else NoPrefix
  {
    var msg := Strip(message);
    assert NoneMatches(msg, AllowedPrefixes) by {
      forall j | 0 <= j < |AllowedPrefixes|
        ensures !StartsWith(msg, Literal(AllowedPrefixes[j]))
      {
      }
    }
    FirstMatchNone(msg, AllowedPrefixes);
  }

  /** A prefix with nothing but whitespace after it is refused, except %LOAD%, and no file changes. */
  lemma ProcessEmptyContent(p: Prefix, padding: string, env: Env, files: Files)
    requires p != LoadModule && Blank(padding)
    ensures Process(Literal(p) + padding, env, files) == Done(Some(EmptyContentError(p)), files)
  {
    RouteOfEmpty(p, padding);
    AnswerEmpty(p, env, files);
  }

  lemma AnswerEmpty(p: Prefix, env: Env, files: Files)
    ensures Answer(EmptyContent(p), env, files) == Done(Some(EmptyContentError(p)), files)
  {
  }

  lemma RouteOfEmpty(p: Prefix, padding: string)
    requires p != LoadModule && Blank(padding)
    ensures RouteOf(Literal(p) + padding) == EmptyContent(p)
  {
    StripPaddedLiteral(p, padding);
    NothingAfterLiteral(p);
    RouteOfMatching(Literal(p) + padding, p);
  }

  lemma NothingAfterLiteral(p: Prefix)
    ensures StartsWith(Literal(p), Literal(p)) && ContentAfter(Literal(p), p) == []
  {
    var lit := Literal(p);
    assert lit[..|lit|] == lit;
    assert lit[|lit|..] == [];
  }

  lemma StripPaddedLiteral(p: Prefix, padding: string)
    requires Blank(padding)
    ensures Strip(Literal(p) + padding) == Literal(p)
  {
    var lit := Literal(p);
    LiteralStripped(p);
    StripSurrounded([], lit, padding);
    assert [] + lit + padding == lit + padding;
  }

  lemma LiteralStripped(p: Prefix)
    ensures Literal(p) != [] && Stripped(Literal(p))
  {
  }

  /**
   * A command written as prefix, separator and content, with any whitespace
   * around it, reaches the prefix's handler with exactly that content.
   */
  lemma RouteOfComposed(lead: string, p: Prefix, gap: string, content: string, trail: string)
    requires Blank(lead) && Blank(gap) && Blank(trail)
    requires Stripped(content) && content != []
    ensures RouteOf(lead + Literal(p) + gap + content + trail) == Dispatch(p, content)
  {
    var message := lead + Literal(p) + gap + content + trail;
    LiteralStripped(p);
    StripPadded(lead, Literal(p), gap, content, trail);
    StripAfterLead(Literal(p), gap, content);
    RouteOfMatching(message, p);
  }

  /** Trimming a padded `lit gap content` gives it back. */
  lemma StripPadded(lead: string, lit: string, gap: string, content: string, trail: string)
    requires Blank(lead) && Blank(trail)
    requires Stripped(lit) && lit != [] && Stripped(content) && content != []
    ensures Strip(lead + lit + gap + content + trail) == lit + gap + content
  {
    var body := lit + gap + content;
    Regroup(lead, lit, gap, content);
    assert lead + lit + gap + content + trail == lead + body + trail;
    assert body[0] == lit[0];
    assert body[|body| - 1] == content[|content| - 1];
    StripSurrounded(lead, body, trail);
  }

  /** The text after `lit` in `lit gap content`, trimmed, is `content`. */
  lemma StripAfterLead(lit: string, gap: string, content: string)
    requires Blank(gap) && Stripped(content)
    ensures StartsWith(lit + gap + content, lit)
    ensures Strip((lit + gap + content)[|lit|..]) == content
  {
    var rest := gap + content;
    assert lit + gap + content == lit + rest;
    assert (lit + rest)[..|lit|] == lit;
    assert (lit + rest)[|lit|..] == rest;
    assert rest + [] == rest;
    StripSurrounded(gap, content, []);
  }

  /** `strip()` keeps a prefix that starts and ends with a visible character. */
  lemma StripKeepsLead(s: string, t: string)
    requires StartsWith(s, t) && t != []
    requires !IsSpace(t[0]) && !IsSpace(t[|t| - 1])
    ensures StartsWith(Strip(s), t)
  {
    var u := TrimStart(s);
    TrimStartDrops(s);
    assert Blank(s[..|s| - |u|]);
    assert s[0] == t[0];
    assert u == s;
    var r := TrimEnd(s);
    TrimEndDrops(s);
    assert Blank(s[|r|..]);
    assert s[|t| - 1] == t[|t| - 1];
    assert |r| >= |t|;
    assert r[..|t|] == s[..|t|];
  }

  /** Every reply line of the server, trimmed, still starts with its sentinel. */
  lemma ReplyLineKeepsSentinel(r: string)
    requires IsReplyLine(r)
    ensures StartsWith(Strip(r), StatusSentinel) || StartsWith(Strip(r), ErrorSentinel)
  {
    if StartsWith(r, StatusLead) {
      assert r[..|StatusSentinel|] == StatusLead[..|StatusSentinel|] == StatusSentinel;
      StripKeepsLead(r, StatusSentinel);
    } else {
      assert r[..|ErrorSentinel|] == ErrorLead[..|ErrorSentinel|] == ErrorSentinel;
      StripKeepsLead(r, ErrorSentinel);
    }
  }

  /** Every reply the router gives is a status line or an error line. */
  lemma ProcessRepliesAreReplyLines(message: string, env: Env, files: Files)
    ensures var o := Process(message, env, files);
      o.Done? && o.reply.Some? ==> IsReplyLine(o.reply.value)
  {
    AnswerRepliesAreReplyLines(RouteOf(message), env, files);
  }

  lemma AnswerRepliesAreReplyLines(route: Route, env: Env, files: Files)
    ensures var o := Answer(route, env, files);
      o.Done? && o.reply.Some? ==> IsReplyLine(o.reply.value)
  {
    if route.Dispatch? {
      HandleEffect(route.prefix, route.content, env, files);
    }
  }

  /**
   * The own-output guard: fed any reply line of the server, the router
   * answers with nothing and changes no file, so the server never answers
   * itself.
   */
  lemma OwnReplyIgnored(r: string, env: Env, files: Files)
    requires IsReplyLine(r)
    ensures RouteOf(r) == OwnReply
    ensures Process(r, env, files) == Done(None, files)
  {
    RouteOfReplyLine(r);
    assert Process(r, env, files) == Answer(OwnReply, env, files);
  }

  lemma RouteOfReplyLine(r: string)
    requires IsReplyLine(r)
    ensures RouteOf(r) == OwnReply
  {
    ReplyLineKeepsSentinel(r);
    forall p: Prefix
      ensures !StartsWith(Strip(r), Literal(p))
    {
      if StartsWith(Strip(r), Literal(p)) {
        PrefixIsNoSentinel(Strip(r), p);
      }
    }
    RouteWithoutPrefix(r);
  }

  /** Whatever the router answers, fed back to it, is ignored. */
  lemma NoFeedbackLoop(message: string, env: Env, files: Files, env2: Env, files2: Files)
    requires Process(message, env, files).Done? && Process(message, env, files).reply.Some?
    ensures Process(Process(message, env, files).reply.value, env2, files2) == Done(None, files2)
  {
    ProcessRepliesAreReplyLines(message, env, files);
    OwnReplyIgnored(Process(message, env, files).reply.value, env2, files2);
  }
}
