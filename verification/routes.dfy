/** The server side of a chat request: choosing a prompt template by keyword,
    putting the user's message into it, cleaning up the generated reply, and
    the order in which the POST /api/chat handler checks its request. */
module Routes {
  import opened Strings
  import opened Templates

  /* ---------------- prompt templates ---------------- */

  /** Each template holds the placeholder exactly once: right after its preamble. */
  lemma PlaceholderOnce(t: Template, j: int)
    ensures OccursAt(TemplateText(t), Placeholder, j) <==> j == |Preamble(t)|
  {
    PreambleHasNoBrace(t);
    PlaceholderAfter(Preamble(t), j);
  }

  /** In text without '{' followed by the placeholder, the placeholder occurs
      only at the end. */
  lemma PlaceholderAfter(p: string, j: int)
    requires '{' !in p
    ensures OccursAt(p + Placeholder, Placeholder, j) <==> j == |p|
  {
    var text := p + Placeholder;
    assert text[|p|..] == Placeholder;
    if OccursAt(text, Placeholder, j) {
      assert text[j..j + |Placeholder|][0] == '{';
      assert forall i :: 0 <= i < |p| ==> text[i] == p[i] && p[i] != '{';
    }
  }

  /* ---------------- keyword classifier ---------------- */

  /** The keyword k occurs somewhere in the message, ignoring letter case. */
  ghost predicate Mentions(message: string, k: string)
  {
    exists j :: OccursAtIgnoringCase(message, k, j)
  }

  /** The message mentions "validate", "idea" or "market". */
  ghost predicate MentionsIdeaKeyword(message: string)
  {
    Mentions(message, "validate") || Mentions(message, "idea") || Mentions(message, "market")
  }

  /** The message mentions "strategy", "plan" or "growth". */
  ghost predicate MentionsStrategyKeyword(message: string)
  {
    Mentions(message, "strategy") || Mentions(message, "plan") || Mentions(message, "growth")
  }

  /** The template for a message: substring tests on the lower-cased message,
      the first group that matches wins. */
  function Classify(message: string): Template
  {
    var m := Lower(message);
    if Contains(m, "validate") || Contains(m, "idea") || Contains(m, "market") then IdeaValidation
    else if Contains(m, "strategy") || Contains(m, "plan") || Contains(m, "growth") then StrategyAdvice
    else FounderSupport
  }

  /** The server's first test: "validate", "idea" or "market" in the
      lower-cased message, that is, anywhere in the message ignoring case. */
  lemma IdeaTestMeaning(message: string)
    ensures (Contains(Lower(message), "validate") || Contains(Lower(message), "idea")
             || Contains(Lower(message), "market")) <==> MentionsIdeaKeyword(message)
  {
    ContainsLower(message, "validate");
    ContainsLower(message, "idea");
    ContainsLower(message, "market");
  }

  /** The server's second test: "strategy", "plan" or "growth" anywhere in the
      message ignoring case. */
  lemma StrategyTestMeaning(message: string)
    ensures (Contains(Lower(message), "strategy") || Contains(Lower(message), "plan")
             || Contains(Lower(message), "growth")) <==> MentionsStrategyKeyword(message)
  {
    ContainsLower(message, "strategy");
    ContainsLower(message, "plan");
    ContainsLower(message, "growth");
  }

  /** The classifier selects by keyword group, and the idea group takes
      priority: a message that mentions one of its keywords gets the
      idea-validation template whatever else it mentions. */
  lemma ClassifyByKeywords(message: string)
    ensures Classify(message) == IdeaValidation <==> MentionsIdeaKeyword(message)
    ensures (Classify(message) == StrategyAdvice)
        <==> !MentionsIdeaKeyword(message) && MentionsStrategyKeyword(message)
    ensures (Classify(message) == FounderSupport)
        <==> !MentionsIdeaKeyword(message) && !MentionsStrategyKeyword(message)
  {
    IdeaTestMeaning(message);
    StrategyTestMeaning(message);
  }

  /** Messages that differ only in letter case get the same template. */
  lemma ClassifyIgnoresCase(a: string, b: string)
    requires SameIgnoringCase(a, b)
    ensures Classify(a) == Classify(b)
  {
    SameIgnoringCaseLower(a, b);
  }

  /* ---------------- template substitution ---------------- */

  /** The replacement text of a string-pattern replace (GetSubstitution in
      ECMAScript, with no capture groups): "$$" gives "$", "$&" the matched
      text, "$`" the text before the match, "$'" the text after it; every
      other character, including any other "$", is copied. */
  function Substitute(replacement: string, matched: string, before: string, after: string): string
  {
    if |replacement| >= 2 && replacement[0] == '$' && replacement[1] in "$&`'" then
      var rest := Substitute(replacement[2..], matched, before, after);
      match replacement[1]
      case '$' => "$" + rest
      case '&' => matched + rest
      case '`' => before + rest
      case _ => after + rest
    else if replacement == [] then []
    else [replacement[0]] + Substitute(replacement[1..], matched, before, after)
  }

  /** A replacement without "$" is inserted literally. */
  lemma {:induction false} SubstituteLiteral(replacement: string, matched: string, before: string, after: string)
    requires '$' !in replacement
    ensures Substitute(replacement, matched, before, after) == replacement
  {
    if replacement != [] {
      assert replacement[0] != '$';
      SubstituteLiteral(replacement[1..], matched, before, after);
    }
  }

  /** A replacement that starts with "$`" begins with the text before the
      match. */
  lemma SubstituteBacktick(replacement: string, matched: string, before: string, after: string)
    requires |replacement| >= 2 && replacement[0] == '$' && replacement[1] == '`'
    ensures Substitute(replacement, matched, before, after)
              == before + Substitute(replacement[2..], matched, before, after)
  {
  }

  /** String.prototype.replace with a string pattern: only the first
      occurrence of the pattern is replaced. */
  function ReplaceFirst(s: string, pattern: string, replacement: string): string
  {
    match IndexOf(s, pattern)
    case None => s
    case Some(i) =>
      var before, after := s[..i], s[i + |pattern|..];
      before + Substitute(replacement, pattern, before, after) + after
  }

  /** The prompt sent for a message. */
  function Prompt(message: string): string
  {
    ReplaceFirst(TemplateText(Classify(message)), Placeholder, message)
  }

  /** Replacing the placeholder at the end of text without '{' keeps the
      text before it and expands the replacement with that text as the part
      before the match and nothing after it. */
  lemma ReplaceAtEnd(p: string, replacement: string)
    requires '{' !in p
    ensures ReplaceFirst(p + Placeholder, Placeholder, replacement)
              == p + Substitute(replacement, Placeholder, p, "")
  {
    var text := p + Placeholder;
    PlaceholderAfter(p, |p|);
    match IndexOf(text, Placeholder)
    case None => assert false;
    case Some(i) =>
      PlaceholderAfter(p, i);
      assert text[..i] == p;
      assert text[i + |Placeholder|..] == "";
  }

  /** The prompt is the chosen template's preamble followed by the message as
      expanded by the replacement patterns (nothing follows the placeholder). */
  lemma PromptShape(message: string)
    ensures Prompt(message)
              == Preamble(Classify(message))
                 + Substitute(message, Placeholder, Preamble(Classify(message)), "")
  {
    var t := Classify(message);
    PreambleHasNoBrace(t);
    ReplaceAtEnd(Preamble(t), message);
  }

  /** A message without "$" is put into the template verbatim, in its original
      letter case. */
  lemma PromptVerbatim(message: string)
    requires '$' !in message
    ensures Prompt(message) == Preamble(Classify(message)) + message
  {
    PromptShape(message);
    SubstituteLiteral(message, Placeholder, Preamble(Classify(message)), "");
  }

  /** A message is not always inserted verbatim: one that starts with "$`"
      has that pattern replaced by the text before the placeholder, so the
      preamble appears twice. */
  lemma PromptBacktickPattern(message: string)
    requires |message| >= 2 && message[0] == '$' && message[1] == '`'
    ensures var p := Preamble(Classify(message));
      Prompt(message) == p + p + Substitute(message[2..], Placeholder, p, "")
  {
    PromptShape(message);
    SubstituteBacktick(message, Placeholder, Preamble(Classify(message)), "");
  }

  /* ---------------- response formatter ---------------- */

  /** The characters the formatter deletes: '#', '*', 'â', '€', '¢' and '-'. */
  predicate IsMarkup(c: char)
  {
    c == '#' || c == '*' || c == '\U{00E2}' || c == '\U{20AC}' || c == '\U{00A2}' || c == '-'
  }

  /** Deletes every markup character, keeping the others in order. */
  function StripMarkup(s: string): (r: string)
    ensures forall c :: c in r <==> c in s && !IsMarkup(c)
  {
    if s == [] then []
    else (if IsMarkup(s[0]) then [] else [s[0]]) + StripMarkup(s[1..])
  }

  /** Stripping works character by character: a single character is kept
      exactly when it is not markup. */
  lemma StripMarkupChar(c: char)
    ensures StripMarkup([c]) == (if IsMarkup(c) then [] else [c])
  {
    assert [c][1..] == [];
  }

  /** Stripping distributes over concatenation, so the kept characters keep
      their order and their number. */
  lemma {:induction false} StripMarkupAppend(a: string, b: string)
    ensures StripMarkup(a + b) == StripMarkup(a) + StripMarkup(b)
    decreases |a|
  {
    if a != [] {
      var head := if IsMarkup(a[0]) then [] else [a[0]];
      assert (a + b)[0] == a[0];
      assert (a + b)[1..] == a[1..] + b;
      assert StripMarkup(a + b) == head + StripMarkup(a[1..] + b);
      StripMarkupAppend(a[1..], b);
      assert StripMarkup(a) == head + StripMarkup(a[1..]);
    } else {
      assert a + b == b;
    }
  }

  /** Stripping a string with no markup changes nothing. */
  lemma {:induction false} StripMarkupFree(s: string)
    requires forall c :: c in s ==> !IsMarkup(c)
    ensures StripMarkup(s) == s
  {
    if s != [] {
      assert s[0] in s;
      StripMarkupFree(s[1..]);
    }
  }

  /** Trims every line. */
  function TrimAll(lines: seq<string>): seq<string>
  {
    seq(|lines|, k requires 0 <= k < |lines| => Trim(lines[k]))
  }

  /** Drops the empty lines, keeping the others in order. */
  function DropEmpty(lines: seq<string>): (r: seq<string>)
    ensures forall k :: 0 <= k < |r| ==> r[k] != []
    ensures multiset(r) == multiset(lines)[[] := 0]
  {
    if lines == [] then []
    else
      var rest := DropEmpty(lines[1..]);
      assert lines == [lines[0]] + lines[1..];
      if lines[0] == [] then rest else [lines[0]] + rest
  }

  /** Dropping empty lines distributes over concatenation, so the kept lines
      stay in their original order. */
  lemma {:induction false} DropEmptyAppend(a: seq<string>, b: seq<string>)
    ensures DropEmpty(a + b) == DropEmpty(a) + DropEmpty(b)
    decreases |a|
  {
    if a != [] {
      assert (a + b)[1..] == a[1..] + b;
      DropEmptyAppend(a[1..], b);
    } else {
      assert a + b == b;
    }
  }

  /** A line the formatter may emit: non-empty, trimmed, free of newlines and
      of markup. */
  predicate CleanLine(line: string)
  {
    line != [] && Trimmed(line) && '\n' !in line && forall c :: c in line ==> !IsMarkup(c)
  }

  /** The lines of the formatted reply: the lines of the reply with the markup
      deleted, each trimmed, the empty ones dropped, in their original order. */
  function Lines(text: string): seq<string>
  {
    DropEmpty(TrimAll(Split(StripMarkup(text))))
  }

  /** Every line the formatter keeps is clean. */
  lemma LinesAreClean(text: string)
    ensures forall k :: 0 <= k < |Lines(text)| ==> CleanLine(Lines(text)[k])
  {
    var trimmed := TrimAll(Split(StripMarkup(text)));
    TrimmedLinesClean(Split(StripMarkup(text)));
    var r := DropEmpty(trimmed);
    forall k | 0 <= k < |r| ensures CleanLine(r[k]) {
      assert r[k] in multiset(r);
      assert r[k] in multiset(trimmed);
    }
  }

  /** The trimmed pieces of a split stripped text are trimmed and free of
      newlines and markup. */
  lemma TrimmedLinesClean(raw: seq<string>)
    requires forall k :: 0 <= k < |raw| ==> '\n' !in raw[k]
    requires forall c :: c in Join(raw) ==> !IsMarkup(c)
    ensures forall k :: 0 <= k < |raw| ==> CleanLine(TrimAll(raw)[k]) || TrimAll(raw)[k] == []
  {
    var trimmed := TrimAll(raw);
    forall k | 0 <= k < |trimmed| ensures CleanLine(trimmed[k]) || trimmed[k] == [] {
      forall c | c in trimmed[k] ensures c != '\n' && !IsMarkup(c) {
        TrimChars(raw[k], c);
        LineCharsInJoin(raw, k, c);
      }
    }
  }

  /** Joining clean lines gives text free of markup and of blank lines, whose
      lines are exactly the joined ones. */
  lemma JoinCleanLines(lines: seq<string>)
    requires forall k :: 0 <= k < |lines| ==> CleanLine(lines[k])
    ensures forall c :: c in Join(lines) ==> !IsMarkup(c)
    ensures NoBlankLines(Join(lines))
    ensures Join(lines) == [] <==> lines == []
    ensures lines != [] ==> Split(Join(lines)) == lines
  {
    forall c | c in Join(lines) ensures !IsMarkup(c) {
      if c != '\n' { JoinChars(lines, c); }
    }
    JoinNoBlankLines(lines);
    JoinEmpty(lines);
    if lines != [] { SplitJoin(lines); }
  }

  /** The response formatter applied to the generated text: no markup, no
      blank line, and its lines are exactly the kept lines. */
  function Format(text: string): (r: string)
    ensures forall c :: c in r ==> !IsMarkup(c)
    ensures NoBlankLines(r)
    ensures r == [] <==> Lines(text) == []
    ensures r != [] ==> Split(r) == Lines(text)
  {
    LinesAreClean(text);
    JoinCleanLines(Lines(text));
    Join(Lines(text))
  }

  /** Formatting formatted text changes nothing. */
  lemma FormatIdempotent(text: string)
    ensures Format(Format(text)) == Format(text)
  {
    LinesAreClean(text);
    var lines := Lines(text);
    if lines == [] {
      assert Format(text) == [];
      assert Split(StripMarkup([])) == [""];
      assert Lines([]) == [];
    } else {
      LinesOfCleanJoin(lines);
    }
  }

  /** The kept lines of a join of clean lines are those lines. */
  lemma LinesOfCleanJoin(lines: seq<string>)
    requires lines != []
    requires forall k :: 0 <= k < |lines| ==> CleanLine(lines[k])
    ensures Lines(Join(lines)) == lines
  {
    SplitOfCleanJoin(lines);
    CleanLinesKept(lines);
  }

  lemma SplitOfCleanJoin(lines: seq<string>)
    requires lines != []
    requires forall k :: 0 <= k < |lines| ==> CleanLine(lines[k])
    ensures Split(StripMarkup(Join(lines))) == lines
  {
    JoinCleanLines(lines);
    StripMarkupFree(Join(lines));
  }

  /** Trimming and dropping empty lines leaves clean lines as they are. */
  lemma CleanLinesKept(lines: seq<string>)
    requires forall k :: 0 <= k < |lines| ==> CleanLine(lines[k])
    ensures DropEmpty(TrimAll(lines)) == lines
  {
    forall k | 0 <= k < |lines| ensures Trim(lines[k]) == lines[k] {
      TrimOfTrimmed(lines[k]);
    }
    assert TrimAll(lines) == lines;
    DropEmptyKeeps(lines);
  }

  lemma {:induction false} DropEmptyKeeps(lines: seq<string>)
    requires forall k :: 0 <= k < |lines| ==> lines[k] != []
    ensures DropEmpty(lines) == lines
  {
    if lines != [] {
      DropEmptyKeeps(lines[1..]);
    }
  }

  /* ---------------- POST /api/chat ---------------- */

  /** What the generative service answered: its text, or the error it raised. */
  datatype Reply = Generated(text: string) | GenerationFailed(error: string)

  /** The HTTP answer of the chat handler. */
  datatype Response =
    | Unauthorized
    | BadRequest
    | ServerError(error: string)
    | Created(message: string, response: string)

  function StatusCode(r: Response): int
  {
    match r
    case Unauthorized => 401
    case BadRequest => 400
    case ServerError(_) => 500
    case Created(_, _) => 200
  }

  /** The steps of the handler that read the request body or reach outside the
      process. */
  datatype Effect =
    | ParseBody
    | Generate(prompt: string)
    | StoreChat(message: string, response: string)
    | ReadHistory

  datatype Exchange = Exchange(response: Response, effects: seq<Effect>)

  /** The chat handler. The session check, the body schema, the generative
      service and the store are the parameters: whether the request is
      authenticated, the message of a body that parses (None when it does
      not), what the service replies, and the error the store raises, if any. */
  function HandleChat(authenticated: bool, body: Option<string>, reply: Reply, storeError: Option<string>): Exchange
  {
    if !authenticated then Exchange(Unauthorized, [])
    else if body.None? then Exchange(BadRequest, [ParseBody])
    else Answer(body.value, Prompt(body.value), reply, storeError)
  }

  /** The handler once both checks passed: the service is always asked with
      the prompt, the answer is 500 or 200, and the chat is created exactly
      when the service produced text and the store accepted it. */
  function Answer(message: string, prompt: string, reply: Reply, storeError: Option<string>): (x: Exchange)
    ensures |x.effects| >= 2 && x.effects[0] == ParseBody && x.effects[1] == Generate(prompt)
    ensures StatusCode(x.response) == 500 || StatusCode(x.response) == 200
    ensures x.response.Created? <==> reply.Generated? && storeError.None?
    ensures reply.GenerationFailed? ==> x.response == ServerError(reply.error) && |x.effects| == 2
    ensures reply.Generated? ==> x.effects == [ParseBody, Generate(prompt), StoreChat(message, Format(reply.text))]
  {
    match reply
    case GenerationFailed(e) => Exchange(ServerError(e), [ParseBody, Generate(prompt)])
    case Generated(text) =>
      var response := Format(text);
      var effects := [ParseBody, Generate(prompt), StoreChat(message, response)];
      if storeError.Some? then Exchange(ServerError(storeError.value), effects)
      else Exchange(Created(message, response), effects)
  }

  /** Authentication is checked first, then the body, then the reply is
      generated: an unauthenticated request gets 401 and does nothing else; an
      authenticated one with a bad body gets 400 and never reaches the
      generative service or the store. */
  lemma HandleChatGating(authenticated: bool, body: Option<string>, reply: Reply, storeError: Option<string>)
    ensures var x := HandleChat(authenticated, body, reply, storeError);
      && (StatusCode(x.response) == 401 <==> !authenticated)
      && (!authenticated ==> x.effects == [])
      && (StatusCode(x.response) == 400 <==> authenticated && body.None?)
      && (authenticated && body.None? ==> forall e :: e in x.effects ==> e == ParseBody)
  {
  }

  /** The service is asked exactly when the request passed both checks, and it
      is asked with the prompt of the original message. */
  lemma HandleChatGenerates(authenticated: bool, body: Option<string>, reply: Reply, storeError: Option<string>, prompt: string)
    ensures (Generate(prompt) in HandleChat(authenticated, body, reply, storeError).effects)
        <==> authenticated && body.Some? && prompt == Prompt(body.value)
  {
  }

  /** A created chat holds the original message and the formatted reply, and
      the stored response is a fixed point of the formatter. */
  lemma HandleChatCreated(authenticated: bool, body: Option<string>, reply: Reply, storeError: Option<string>)
    ensures var x := HandleChat(authenticated, body, reply, storeError);
      && (x.response.Created? <==> authenticated && body.Some? && reply.Generated? && storeError.None?)
      && (x.response.Created? ==>
            && x.response.message == body.value
            && x.response.response == Format(reply.text)
            && Format(x.response.response) == x.response.response
            && StoreChat(x.response.message, x.response.response) in x.effects)
  {
    if reply.Generated? {
      FormatIdempotent(reply.text);
    }
  }

  /* ---------------- GET /api/chat-history ---------------- */

  /** A stored chat as the history lists it. */
  datatype ChatRecord = ChatRecord(message: string, response: string)

  /** What the history handler answers: 401, or the caller's records. */
  datatype HistoryResponse = HistoryUnauthorized | History(records: seq<ChatRecord>)

  datatype HistoryExchange = HistoryExchange(response: HistoryResponse, effects: seq<Effect>)

  /** The history handler. The session check and the store are the
      parameters: whether the request is authenticated, and the records the
      store would list for the caller. */
  function HandleHistory(authenticated: bool, stored: seq<ChatRecord>): HistoryExchange
  {
    if !authenticated then HistoryExchange(HistoryUnauthorized, [])
    else HistoryExchange(History(stored), [ReadHistory])
  }

  /** Authentication is checked before the store is read: an unauthenticated
      request gets 401 and never touches the store; an authenticated one reads
      the store once and answers with exactly its records. */
  lemma HandleHistoryGating(authenticated: bool, stored: seq<ChatRecord>)
    ensures var x := HandleHistory(authenticated, stored);
      && (x.response.HistoryUnauthorized? <==> !authenticated)
      && (ReadHistory in x.effects <==> authenticated)
      && (!authenticated ==> x.effects == [])
      && (authenticated ==> x.effects == [ReadHistory] && x.response.records == stored)
  {
  }

  /** The chat handler never reads the history, and the history handler
      never generates or stores anything. */
  lemma HandlersStayApart(authenticated: bool, body: Option<string>, reply: Reply,
                          storeError: Option<string>, stored: seq<ChatRecord>)
    ensures ReadHistory !in HandleChat(authenticated, body, reply, storeError).effects
    ensures forall e :: e in HandleHistory(authenticated, stored).effects ==> e == ReadHistory
  {
  }
}
