/** The chat screen of the client: the icon shown beside a sent question,
    the rendering of the advisor's reply as headings and paragraphs, and the
    composer that guards and clears the message box. */
module ChatInterface {
  import opened Strings
  import opened Templates
  import Routes

  /* ---------------- question icon ---------------- */

  datatype Icon = Lightbulb | BarChart2 | Heart

  /** The icon for a question: substring tests on the lower-cased question,
      the first that matches wins. */
  function QueryIcon(message: string): Icon
  {
    var m := Lower(message);
    if Contains(m, "validate") || Contains(m, "idea") then Lightbulb
    else if Contains(m, "strategy") || Contains(m, "plan") then BarChart2
    else Heart
  }

  /** The icon is chosen by keyword, ignoring letter case, and "validate" or
      "idea" take priority over "strategy" or "plan". */
  lemma QueryIconByKeywords(message: string)
    ensures (QueryIcon(message) == Lightbulb)
        <==> Routes.Mentions(message, "validate") || Routes.Mentions(message, "idea")
    ensures (QueryIcon(message) == BarChart2)
        <==> (!Routes.Mentions(message, "validate") && !Routes.Mentions(message, "idea")
              && (Routes.Mentions(message, "strategy") || Routes.Mentions(message, "plan")))
    ensures (QueryIcon(message) == Heart)
        <==> (!Routes.Mentions(message, "validate") && !Routes.Mentions(message, "idea")
              && !Routes.Mentions(message, "strategy") && !Routes.Mentions(message, "plan"))
  {
    LightbulbTestMeaning(message);
    ChartTestMeaning(message);
  }

  /** The client's first test: "validate" or "idea" anywhere in the question
      ignoring case. */
  lemma LightbulbTestMeaning(message: string)
    ensures (Contains(Lower(message), "validate") || Contains(Lower(message), "idea"))
        <==> Routes.Mentions(message, "validate") || Routes.Mentions(message, "idea")
  {
    ContainsLower(message, "validate");
    ContainsLower(message, "idea");
  }

  /** The client's second test: "strategy" or "plan" anywhere in the question
      ignoring case. */
  lemma ChartTestMeaning(message: string)
    ensures (Contains(Lower(message), "strategy") || Contains(Lower(message), "plan"))
        <==> Routes.Mentions(message, "strategy") || Routes.Mentions(message, "plan")
  {
    ContainsLower(message, "strategy");
    ContainsLower(message, "plan");
  }

  /** Questions that differ only in letter case get the same icon. */
  lemma QueryIconIgnoresCase(a: string, b: string)
    requires SameIgnoringCase(a, b)
    ensures QueryIcon(a) == QueryIcon(b)
  {
    SameIgnoringCaseLower(a, b);
  }

  /** Where the icon and the server's template agree: the lightbulb always
      goes with the idea-validation template, a question the server answers
      with founder support always shows the heart, and the chart never goes
      with founder support. */
  lemma QueryIconAgreesWithTemplate(message: string)
    ensures QueryIcon(message) == Lightbulb ==> Routes.Classify(message) == IdeaValidation
    ensures Routes.Classify(message) == FounderSupport ==> QueryIcon(message) == Heart
    ensures QueryIcon(message) == BarChart2 ==> Routes.Classify(message) != FounderSupport
  {
    QueryIconByKeywords(message);
    Routes.ClassifyByKeywords(message);
  }

  /** The icon has no "market" test: a question about the market alone is
      answered with the idea-validation template but shown with the heart. */
  lemma MarketQuestionShowsHeart(message: string)
    requires Routes.Mentions(message, "market")
    requires !Routes.Mentions(message, "validate") && !Routes.Mentions(message, "idea")
    requires !Routes.Mentions(message, "strategy") && !Routes.Mentions(message, "plan")
    ensures QueryIcon(message) == Heart
    ensures Routes.Classify(message) == IdeaValidation
  {
    QueryIconByKeywords(message);
    Routes.ClassifyByKeywords(message);
  }

  /** A question about a plan for the market is answered with the
      idea-validation template but shown with the chart. */
  lemma PlanMarketQuestionShowsChart(message: string)
    requires Routes.Mentions(message, "plan") && Routes.Mentions(message, "market")
    requires !Routes.Mentions(message, "validate") && !Routes.Mentions(message, "idea")
    ensures QueryIcon(message) == BarChart2
    ensures Routes.Classify(message) == IdeaValidation
  {
    QueryIconByKeywords(message);
    Routes.ClassifyByKeywords(message);
  }

  /** The icon has no "growth" test: a question about growth alone is
      answered with the strategy template but shown with the heart. */
  lemma GrowthQuestionShowsHeart(message: string)
    requires Routes.Mentions(message, "growth")
    requires !Routes.Mentions(message, "validate") && !Routes.Mentions(message, "idea")
    requires !Routes.Mentions(message, "market")
    requires !Routes.Mentions(message, "strategy") && !Routes.Mentions(message, "plan")
    ensures QueryIcon(message) == Heart
    ensures Routes.Classify(message) == StrategyAdvice
  {
    QueryIconByKeywords(message);
    Routes.ClassifyByKeywords(message);
  }

  /* ---------------- reply rendering ---------------- */

  /** A rendered element with its React key, the index of its line. */
  datatype Item = Header(key: nat, text: string) | Paragraph(key: nat, text: string)

  predicate EndsWithColon(t: string)
  {
    |t| > 0 && t[|t| - 1] == ':'
  }

  /** The item shows the line trimmed, is never empty, and is a heading
      exactly when the trimmed line ends with a colon. */
  predicate Shows(item: Item, line: string)
  {
    item.text == Trim(line) && item.text != [] && (item.Header? <==> EndsWithColon(item.text))
  }

  /** One line of the reply: nothing when it is blank, otherwise a heading
      or a paragraph showing the trimmed line, keyed by the line's index. */
  function RenderLine(line: string, key: nat): (r: Option<Item>)
    ensures r.None? <==> Trim(line) == []
    ensures r.Some? ==> r.value.key == key && Shows(r.value, line)
  {
    var t := Trim(line);
    if t == [] then None
    else if EndsWithColon(t) then Some(Header(key, t))
    else Some(Paragraph(key, t))
  }

  /** Renders lines numbered from `first`, keeping the items of the lines
      that are not blank. */
  function RenderLines(lines: seq<string>, first: nat): (items: seq<Item>)
    ensures |items| <= |lines|
    decreases |lines|
  {
    if lines == [] then []
    else
      var rest := RenderLines(lines[1..], first + 1);
      match RenderLine(lines[0], first)
      case None => rest
      case Some(item) => [item] + rest
  }

  /** Every item is keyed by the index of a line, and shows that line. */
  lemma {:induction false} RenderLinesKeys(lines: seq<string>, first: nat)
    ensures forall i :: 0 <= i < |RenderLines(lines, first)| ==>
      first <= RenderLines(lines, first)[i].key < first + |lines|
      && Shows(RenderLines(lines, first)[i], lines[RenderLines(lines, first)[i].key - first])
    decreases |lines|
  {
    if lines != [] {
      RenderLinesKeys(lines[1..], first + 1);
      var rest := RenderLines(lines[1..], first + 1);
      var items := RenderLines(lines, first);
      match RenderLine(lines[0], first)
      case None =>
        assert items == rest;
        forall i | 0 <= i < |items|
          ensures Shows(items[i], lines[items[i].key - first])
        {
          assert lines[items[i].key - first] == lines[1..][items[i].key - (first + 1)];
        }
      case Some(item) =>
        assert items == [item] + rest;
        forall i | 0 < i < |items|
          ensures first < items[i].key < first + |lines|
          ensures Shows(items[i], lines[items[i].key - first])
        {
          assert items[i] == rest[i - 1];
          assert lines[items[i].key - first] == lines[1..][items[i].key - (first + 1)];
        }
    }
  }

  /** The keys increase strictly along the items, so no two items share a
      key and the items keep the order of their lines. */
  lemma {:induction false} RenderLinesOrdered(lines: seq<string>, first: nat)
    ensures forall i, j :: 0 <= i < j < |RenderLines(lines, first)| ==>
      RenderLines(lines, first)[i].key < RenderLines(lines, first)[j].key
    decreases |lines|
  {
    if lines != [] {
      RenderLinesOrdered(lines[1..], first + 1);
      RenderLinesKeys(lines[1..], first + 1);
      var rest := RenderLines(lines[1..], first + 1);
      var items := RenderLines(lines, first);
      match RenderLine(lines[0], first)
      case None =>
        assert items == rest;
      case Some(item) =>
        assert items == [item] + rest;
        forall i, j | 0 <= i < j < |items|
          ensures items[i].key < items[j].key
        {
          assert items[j] == rest[j - 1];
          if i > 0 {
            assert items[i] == rest[i - 1];
          }
        }
    }
  }

  /** No line that has text is lost: each gets an item keyed by its index. */
  lemma {:induction false} RenderLinesComplete(lines: seq<string>, first: nat, k: nat)
    requires k < |lines| && Trim(lines[k]) != []
    ensures exists i :: 0 <= i < |RenderLines(lines, first)| && RenderLines(lines, first)[i].key == first + k
    decreases |lines|
  {
    var items := RenderLines(lines, first);
    var rest := RenderLines(lines[1..], first + 1);
    if k == 0 {
      assert items[0].key == first;
    } else {
      assert lines[1..][k - 1] == lines[k];
      RenderLinesComplete(lines[1..], first + 1, k - 1);
      var i :| 0 <= i < |rest| && rest[i].key == first + 1 + (k - 1);
      match RenderLine(lines[0], first)
      case None =>
        assert items[i] == rest[i];
      case Some(item) =>
        assert items[i + 1] == rest[i];
    }
  }

  /** The reply split at line feeds and rendered line by line. */
  function Render(response: string): seq<Item>
  {
    RenderLines(Split(response), 0)
  }

  /** Lines that are all non-blank and already trimmed render one item each,
      in order, keyed by position, showing the line itself. */
  lemma {:induction false} RenderTrimmedLines(lines: seq<string>, first: nat)
    requires forall k :: 0 <= k < |lines| ==> lines[k] != [] && Trimmed(lines[k])
    ensures |RenderLines(lines, first)| == |lines|
    ensures forall i :: 0 <= i < |lines| ==>
      RenderLines(lines, first)[i].key == first + i && Shows(RenderLines(lines, first)[i], lines[i])
    decreases |lines|
  {
    if lines != [] {
      RenderTrimmedLines(lines[1..], first + 1);
      var rest := RenderLines(lines[1..], first + 1);
      var items := RenderLines(lines, first);
      assert items == [RenderLine(lines[0], first).value] + rest by {
        TrimOfTrimmed(lines[0]);
      }
      forall i | 0 < i < |lines|
        ensures items[i].key == first + i && Shows(items[i], lines[i])
      {
        assert items[i] == rest[i - 1];
        assert lines[i] == lines[1..][i - 1];
      }
    }
  }

  /** The empty reply renders nothing. */
  lemma RenderEmpty()
    ensures Render([]) == []
  {
    assert Split([]) == [[]];
    assert Trim([]) == [];
    assert RenderLines([[]], 0) == RenderLines([], 1);
  }

  /** A reply from the server renders as exactly the formatter's cleaned
      lines: one item per line, keyed 0, 1, 2, ..., showing the line, and a
      heading exactly when the line ends with a colon. */
  lemma RenderFormatted(text: string)
    ensures var items, lines := Render(Routes.Format(text)), Routes.Lines(text);
      |items| == |lines|
      && forall i :: 0 <= i < |lines| ==>
        items[i].key == i && items[i].text == lines[i]
        && (items[i].Header? <==> EndsWithColon(lines[i]))
  {
    var lines, r := Routes.Lines(text), Routes.Format(text);
    if lines == [] {
      RenderEmpty();
    } else {
      Routes.LinesAreClean(text);
      assert Split(r) == lines;
      forall k | 0 <= k < |lines| ensures lines[k] != [] && Trimmed(lines[k]) {
        assert Routes.CleanLine(lines[k]);
      }
      RenderTrimmedLines(lines, 0);
      forall i | 0 <= i < |lines| ensures Render(r)[i].text == lines[i] {
        TrimOfTrimmed(lines[i]);
      }
    }
  }

  /* ---------------- composer ---------------- */

  /** The message box and the pending state of the chat request. */
  class Composer {
    var message: string
    var pending: bool

    constructor()
      ensures message == "" && !pending
    {
      message := "";
      pending := false;
    }

    /** The submit handler's guard: something besides white space is typed
        and no request is in flight. */
    predicate CanSubmit()
      reads this
    {
      Trim(message) != [] && !pending
    }

    /** The send button's disabled state. */
    predicate SubmitDisabled()
      reads this
    {
      pending || Trim(message) == []
    }

    /** The user edits the text box. */
    method Change(text: string)
      modifies this
      ensures message == text && pending == old(pending)
    {
      message := text;
    }

    /** Submitting sends the message as typed, untrimmed, when the guard
        holds, and then marks the request in flight; otherwise nothing
        happens. */
    method Submit() returns (request: Option<string>)
      modifies this
      ensures old(CanSubmit()) ==> request == Some(old(message)) && pending
      ensures !old(CanSubmit()) ==> request == None && pending == old(pending)
      ensures message == old(message)
    {
      if Trim(message) != [] && !pending {
        request := Some(message);
        pending := true;
      } else {
        request := None;
      }
    }

    /** The request succeeded: the box is cleared. */
    method Succeed()
      modifies this
      ensures message == "" && !pending
    {
      message := "";
      pending := false;
    }

    /** The request failed: the box keeps its text. */
    method Fail()
      modifies this
      ensures message == old(message) && !pending
    {
      pending := false;
    }
  }

  /** The button is disabled exactly when the submit handler would do
      nothing. */
  lemma DisabledExactlyWhenGuarded(c: Composer)
    ensures c.SubmitDisabled() <==> !c.CanSubmit()
  {
  }

  /** While a request is in flight a second submit sends nothing, so at most
      one request is outstanding; after success the box is empty and cannot
      be submitted until the user types again. */
  method SubmitTwice(c: Composer) returns (first: Option<string>, second: Option<string>)
    modifies c
    ensures first.Some? ==> second.None?
    ensures first.Some? <==> old(c.CanSubmit())
  {
    first := c.Submit();
    second := c.Submit();
  }

  /** After a successful request the box is empty, so submitting again sends
      nothing until the user types. */
  method SubmitAfterSuccess(c: Composer) returns (request: Option<string>)
    modifies c
    ensures request.None?
  {
    c.Succeed();
    assert Trim(c.message) == [];
    request := c.Submit();
  }
}
