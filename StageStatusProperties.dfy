/**
  Properties of the executor model: what the "failed" classification accepts,
  and a reader for the webhook body that recovers the spliced values, which
  shows both that they are spliced verbatim and that nothing is escaped.
 */
module StageStatusProperties {

  import opened Wrappers
  import opened JavaString
  import opened StageStatusRequestExecutor

  // ------------------------------------------------- the "failed" classification

  /** `failed` occurs at `i`, compared letter by letter after lower-casing. */
  ghost predicate FailedAt(state: string, i: int)
  {
    0 <= i && i + 6 <= |state|
    && forall k :: 0 <= k < 6 ==> LowerChar(state[i + k]) == "failed"[k]
  }

  /** A state counts as failed exactly when some six letters of it spell `failed` in any case. */
  lemma FailedStateIff(state: string)
    ensures IsFailedState(state) <==> exists i :: FailedAt(state, i)
  {
    var low := ToLowerAscii(state);
    ContainsIff(low, "failed");
    if IsFailedState(state) {
      var i :| OccursAt(low, "failed", i);
      forall k | 0 <= k < 6 ensures LowerChar(state[i + k]) == "failed"[k] {
        assert low[i..i + 6][k] == low[i + k];
      }
      assert FailedAt(state, i);
    }
    if i :| FailedAt(state, i) {
      assert low[i..i + 6] == "failed";
      assert OccursAt(low, "failed", i);
    }
  }

  /** The states the host sends for failures trigger a notification, in any case and position. */
  lemma FailedStateExamples()
    ensures IsFailedState("Failed") && IsFailedState("FAILED") && IsFailedState("xfailedy")
  {
    FailedAtIsFailed("Failed", 0);
    FailedAtIsFailed("FAILED", 0);
    FailedAtIsFailed("xfailedy", 1);
  }

  /** Passing and building stages never trigger a notification. */
  lemma PassedStateNotFailed()
    ensures !IsFailedState("Passed") && !IsFailedState("Building")
  {
    NoFailedWithoutF("Passed");
    NoFailedWithoutF("Building");
  }

  /** Cancelled stages and an empty state never trigger one either. */
  lemma CancelledStateNotFailed()
    ensures !IsFailedState("Cancelled") && !IsFailedState("")
  {
    NoFailedWithoutF("Cancelled");
    NoFailedWithoutF("");
  }

  /** One witness position is enough for a state to count as failed. */
  lemma FailedAtIsFailed(state: string, i: int)
    requires 0 <= i && i + 6 <= |state|
    requires forall k :: 0 <= k < 6 ==> LowerChar(state[i + k]) == "failed"[k]
    ensures IsFailedState(state)
  {
    FailedStateIff(state);
    assert FailedAt(state, i);
  }

  /** A state with no letter `f` or `F` never counts as failed. */
  lemma NoFailedWithoutF(state: string)
    requires forall k :: 0 <= k < |state| ==> state[k] != 'f' && state[k] != 'F'
    ensures !IsFailedState(state)
  {
    FailedStateIff(state);
    forall i ensures !FailedAt(state, i) {
      if 0 <= i && i + 6 <= |state| {
        assert LowerChar(state[i]) != "failed"[0];
      }
    }
  }

  // ---------------------------------------------------------- reading the body

  /** The field values of a link-type webhook body. */
  datatype Link = Link(text: string, title: string, picUrl: string, messageUrl: string)

  /** `s` does not contain the character `c`. */
  predicate NoChar(s: string, c: char)
  {
    forall k :: 0 <= k < |s| ==> s[k] != c
  }

  /** Splits before the first `c` (or at the end when there is none). */
  function SplitAt(s: string, c: char): (r: (string, string))
    ensures r.0 + r.1 == s
    ensures NoChar(r.0, c)
    ensures r.1 == [] || r.1[0] == c
  {
    if s == [] || s[0] == c then ([], s)
    else
      var (a, b) := SplitAt(s[1..], c);
      assert [s[0]] + (a + b) == s;
      ([s[0]] + a, b)
  }

  /** The pieces of `s` between occurrences of `c`. */
  function Segments(s: string, c: char): seq<string>
    decreases |s|
  {
    var (a, b) := SplitAt(s, c);
    if b == [] then [a] else [a] + Segments(b[1..], c)
  }

  /** Removes `prefix` from the front of `s`, if it is there. */
  function DropPrefix(s: string, prefix: string): (r: Option<string>)
    ensures r.Some? <==> prefix <= s
    ensures r.Some? ==> prefix + r.value == s
  {
    if prefix <= s then Some(s[|prefix|..]) else None
  }

  /** Reads one value up to the next double quote, then the template text `after` that follows it. */
  function ReadField(s: string, after: string): Option<(string, string)>
  {
    var (value, rest) := SplitAt(s, '"');
    match DropPrefix(rest, after)
    case None => None
    case Some(tail) => Some((value, tail))
  }

  /**
    Reads a body laid out by a template with the given fixed pieces: each value
    runs up to the next double quote. This reads the template, not JSON:
    backslash escapes are taken literally.
   */
  function DecodeWith(body: string, head: string, beforeTitle: string, beforePicUrl: string,
                      beforeMessageUrl: string, tail: string): Option<Link>
  {
    match DropPrefix(body, head)
    case None => None
    case Some(r0) =>
      match ReadField(r0, beforeTitle)
      case None => None
      case Some((text, r1)) =>
        match ReadField(r1, beforePicUrl)
        case None => None
        case Some((title, r2)) =>
          match ReadField(r2, beforeMessageUrl)
          case None => None
          case Some((pic, r3)) =>
            match ReadField(r3, tail)
            case None => None
            case Some((url, r4)) =>
              if r4 == [] then Some(Link(text, title, pic, url)) else None
  }

  /** Reads a body laid out by the executor's template. */
  function DecodeBody(body: string): Option<Link>
  {
    DecodeWith(body, BodyHead, BeforeTitle, BeforePicUrl, BeforeMessageUrl, BodyTail)
  }

  /** A value without `c`, followed by text starting with `c`, splits off exactly. */
  lemma {:induction false} SplitAtOf(a: string, b: string, c: char)
    requires NoChar(a, c)
    requires b == [] || b[0] == c
    ensures SplitAt(a + b, c) == (a, b)
  {
    var s := a + b;
    if a != [] {
      assert s[0] == a[0] != c;
      assert s[1..] == a[1..] + b;
      SplitAtOf(a[1..], b, c);
      assert SplitAt(s, c) == ([s[0]] + SplitAt(s[1..], c).0, SplitAt(s[1..], c).1);
      assert [a[0]] + a[1..] == a;
    } else {
      assert s == b;
    }
  }

  /** A segment without `c`, then `c`, is the first of the segments. */
  lemma SegmentsOf(a: string, c: char, rest: string)
    requires NoChar(a, c)
    ensures Segments(a + ([c] + rest), c) == [a] + Segments(rest, c)
  {
    SplitAtOf(a, [c] + rest, c);
    assert ([c] + rest)[1..] == rest;
  }

  /** Text without `c` is a single segment. */
  lemma SegmentsNoChar(a: string, c: char)
    requires NoChar(a, c)
    ensures Segments(a, c) == [a]
  {
    SplitAtOf(a, [], c);
    assert a + [] == a;
  }

  /** Removing a prefix from a text that starts with it leaves the rest. */
  lemma DropPrefixOf(prefix: string, rest: string)
    ensures DropPrefix(prefix + rest, prefix) == Some(rest)
  {
  }

  /** A quote-free value followed by the expected template text is read back exactly. */
  lemma ReadFieldOf(value: string, after: string, rest: string)
    requires NoChar(value, '"')
    requires after != [] && after[0] == '"'
    ensures ReadField(value + (after + rest), after) == Some((value, rest))
  {
    SplitAtOf(value, after + rest, '"');
    DropPrefixOf(after, rest);
  }

  /** Regroups the nine pieces of a body so that they can be read from the left. */
  lemma Regroup(a: string, b: string, c: string, d: string, e: string, f: string, g: string,
                h: string, i: string)
    ensures a + b + c + d + e + f + g + h + i == a + (b + (c + (d + (e + (f + (g + (h + (i + []))))))))
  {
  }

  /** The body after its head: the text, then `BeforeTitle`, then what follows the title's quote. */
  lemma BodyAfterHead(text: string, title: string, messageUrl: string)
    ensures DropPrefix(Body(text, title, messageUrl), BodyHead)
         == Some(text + (BeforeTitle + (title + (BeforePicUrl + ("" + (BeforeMessageUrl
                 + (messageUrl + (BodyTail + []))))))))
  {
    Regroup(BodyHead, text, BeforeTitle, title, BeforePicUrl, "", BeforeMessageUrl, messageUrl, BodyTail);
    DropPrefixOf(BodyHead, text + (BeforeTitle + (title + (BeforePicUrl + ("" + (BeforeMessageUrl
                 + (messageUrl + (BodyTail + []))))))));
  }

  /** Reading a body gives back the spliced values when none contains a double quote. */
  lemma BodyRoundTrip(text: string, title: string, messageUrl: string)
    requires NoChar(text, '"') && NoChar(title, '"') && NoChar(messageUrl, '"')
    ensures DecodeBody(Body(text, title, messageUrl)) == Some(Link(text, title, "", messageUrl))
  {
    var r3 := messageUrl + (BodyTail + []);
    var r2 := "" + (BeforeMessageUrl + r3);
    var r1 := title + (BeforePicUrl + r2);
    var r0 := text + (BeforeTitle + r1);
    BodyAfterHead(text, title, messageUrl);
    ReadFieldOf(text, BeforeTitle, r1);
    ReadFieldOf(title, BeforePicUrl, r2);
    ReadFieldOf("", BeforeMessageUrl, r3);
    ReadFieldOf(messageUrl, BodyTail, []);
  }

  /** The number of double quotes in `s`. */
  function Quotes(s: string): nat
  {
    if s == [] then 0 else (if s[0] == '"' then 1 else 0) + Quotes(s[1..])
  }

  /** Quotes add up over a concatenation. */
  lemma {:induction false} QuotesConcat(a: string, b: string)
    ensures Quotes(a + b) == Quotes(a) + Quotes(b)
  {
    if a != [] {
      assert (a + b)[1..] == a[1..] + b;
      QuotesConcat(a[1..], b);
    } else {
      assert a + b == b;
    }
  }

  /** A text is quote-free exactly when it counts no quote. */
  lemma {:induction false} NoQuoteIffNone(s: string)
    ensures NoChar(s, '"') <==> Quotes(s) == 0
  {
    if s != [] {
      NoQuoteIffNone(s[1..]);
      if NoChar(s, '"') {
        assert NoChar(s[1..], '"');
      } else if Quotes(s) == 0 {
        assert NoChar(s[1..], '"');
        forall k | 0 <= k < |s| ensures s[k] != '"' {
          if k > 0 { assert s[k] == s[1..][k - 1]; }
        }
      }
    }
  }

  /** A field read successfully consumes a quote-free value and the template text after it. */
  lemma ReadFieldQuotes(s: string, after: string)
    requires ReadField(s, after).Some?
    ensures Quotes(s) == Quotes(after) + Quotes(ReadField(s, after).value.1)
  {
    var (value, rest) := SplitAt(s, '"');
    var tail := ReadField(s, after).value.1;
    assert rest == after + tail;
    NoQuoteIffNone(value);
    QuotesConcat(value, rest);
    QuotesConcat(after, tail);
  }

  /** A body the reader accepts holds the quotes of the fixed pieces and no others. */
  lemma DecodedQuotes(body: string, h: string, p1: string, p2: string, p3: string, tl: string)
    requires DecodeWith(body, h, p1, p2, p3, tl).Some?
    ensures Quotes(body) == Quotes(h) + Quotes(p1) + Quotes(p2) + Quotes(p3) + Quotes(tl)
  {
    var r0 := DropPrefix(body, h).value;
    QuotesConcat(h, r0);
    ReadFieldQuotes(r0, p1);
    var r1 := ReadField(r0, p1).value.1;
    ReadFieldQuotes(r1, p2);
    var r2 := ReadField(r1, p2).value.1;
    ReadFieldQuotes(r2, p3);
    var r3 := ReadField(r2, p3).value.1;
    ReadFieldQuotes(r3, tl);
  }

  /** A body holds the quotes of the fixed pieces plus those of the three values. */
  lemma SplicedQuotes(h: string, text: string, p1: string, title: string, p2: string, p3: string,
                      messageUrl: string, tl: string)
    ensures Quotes(h + text + p1 + title + p2 + "" + p3 + messageUrl + tl)
         == Quotes(h) + Quotes(p1) + Quotes(p2) + Quotes(p3) + Quotes(tl)
            + Quotes(text) + Quotes(title) + Quotes(messageUrl)
  {
    var r6 := messageUrl + tl;
    var r5 := p3 + r6;
    var r3 := p2 + r5;
    var r2 := title + r3;
    var r1 := p1 + r2;
    var r0 := text + r1;
    assert h + text + p1 + title + p2 + "" + p3 + messageUrl + tl == h + r0;
    QuotesConcat(h, r0);
    QuotesConcat(text, r1);
    QuotesConcat(p1, r2);
    QuotesConcat(title, r3);
    QuotesConcat(p2, r5);
    QuotesConcat(p3, r6);
    QuotesConcat(messageUrl, tl);
  }

  /** Whatever the fixed pieces, the reader accepts a body only if no spliced value holds a quote. */
  lemma SplicedNeedsNoQuote(h: string, text: string, p1: string, title: string, p2: string, p3: string,
                            messageUrl: string, tl: string)
    requires DecodeWith(h + text + p1 + title + p2 + "" + p3 + messageUrl + tl, h, p1, p2, p3, tl).Some?
    ensures NoChar(text, '"') && NoChar(title, '"') && NoChar(messageUrl, '"')
  {
    DecodedQuotes(h + text + p1 + title + p2 + "" + p3 + messageUrl + tl, h, p1, p2, p3, tl);
    SplicedQuotes(h, text, p1, title, p2, p3, messageUrl, tl);
    NoQuoteIffNone(text);
    NoQuoteIffNone(title);
    NoQuoteIffNone(messageUrl);
  }

  /** The reader accepts a body only when none of the spliced values holds a double quote. */
  lemma BodyNeedsNoQuote(text: string, title: string, messageUrl: string)
    requires DecodeBody(Body(text, title, messageUrl)).Some?
    ensures NoChar(text, '"') && NoChar(title, '"') && NoChar(messageUrl, '"')
  {
    SplicedNeedsNoQuote(BodyHead, text, BeforeTitle, title, BeforePicUrl, BeforeMessageUrl, messageUrl, BodyTail);
  }

  /**
    No escaping: the body reads back exactly when no spliced value holds a
    double quote, and then it gives the values back unchanged.
   */
  lemma BodyReadableIff(text: string, title: string, messageUrl: string)
    ensures DecodeBody(Body(text, title, messageUrl)).Some?
        <==> NoChar(text, '"') && NoChar(title, '"') && NoChar(messageUrl, '"')
    ensures DecodeBody(Body(text, title, messageUrl)).Some? ==>
      DecodeBody(Body(text, title, messageUrl)) == Some(Link(text, title, "", messageUrl))
  {
    if DecodeBody(Body(text, title, messageUrl)).Some? {
      BodyNeedsNoQuote(text, title, messageUrl);
    }
    if NoChar(text, '"') && NoChar(title, '"') && NoChar(messageUrl, '"') {
      BodyRoundTrip(text, title, messageUrl);
    }
  }

  /**
    No escaping: a double quote in the text (the sender name, say) that is not
    followed by a comma ends the value early, and the body no longer reads back.
    An instance of `BodyNeedsNoQuote`, proved here directly from the reader.
   */
  lemma QuoteInTextBreaksBody(a: string, b: string, title: string, messageUrl: string)
    requires NoChar(a, '"')
    requires |b| >= 2 && b[0] == '"' && b[1] != ','
    ensures DecodeBody(Body(a + b, title, messageUrl)) == None
  {
    var r1 := title + (BeforePicUrl + ("" + (BeforeMessageUrl + (messageUrl + (BodyTail + [])))));
    BodyAfterHead(a + b, title, messageUrl);
    assert (a + b) + (BeforeTitle + r1) == a + (b + (BeforeTitle + r1));
    var rest := b + (BeforeTitle + r1);
    SplitAtOf(a, rest, '"');
    assert !(BeforeTitle <= rest) by {
      assert BeforeTitle[1] == ',' && rest[1] == b[1];
    }
    assert ReadField(a + rest, BeforeTitle) == None;
  }

  /**
    Whatever the settings, a reachable state that does not say "failed" (a
    passing stage, say) sends nothing and reports success: there is no
    recovery message.
   */
  lemma NonFailedStateSendsNothing(settings: PluginSettings, request: StageStatusRequest,
                                   nullMessage: Option<string>, transport: Transport)
    requires StateOf(request).Some? && !IsFailedState(StateOf(request).value)
    ensures SendNotification(settings, request, nullMessage, transport).post == None
    ensures Execute(settings, request, nullMessage, transport).json == map["status" := JStr("success")]
  {
  }

  // ------------------------------------------------------- the sender's text

  /** The fixed text after the sender in the `text` field. */
  const SenderSuffix: string := " - " + FixText

  /** The sender, read back from a `text` value by removing the fixed suffix. */
  function SenderOf(text: string): Option<string>
  {
    if |SenderSuffix| <= |text| && text[|text| - |SenderSuffix|..] == SenderSuffix
    then Some(text[..|text| - |SenderSuffix|])
    else None
  }

  /**
    The `text` value names its sender: removing the fixed suffix gives the
    sender back, and a text that reads back as a sender is that sender's text.
   */
  lemma TextRoundTrip(apiUser: string, text: string)
    ensures SenderOf(Text(apiUser)) == Some(apiUser)
    ensures SenderOf(text) == Some(apiUser) ==> Text(apiUser) == text
  {
    var t := Text(apiUser);
    assert t == apiUser + SenderSuffix;
    assert t[|t| - |SenderSuffix|..] == SenderSuffix;
    assert t[..|t| - |SenderSuffix|] == apiUser;
    if SenderOf(text) == Some(apiUser) {
      assert text == text[..|text| - |SenderSuffix|] + text[|text| - |SenderSuffix|..];
    }
  }

  // ------------------------------------------------- the title and the link

  /** The fixed words of the title template, taken apart at their spaces. */
  lemma TitleLiterals()
    ensures "Pipeline " == "Pipeline" + [' '] && " stage " == [' '] + ("stage" + [' '])
    ensures NoChar("Pipeline", ' ') && NoChar("stage", ' ')
  {
  }

  /** Regroups the pieces of a title so that they can be read from the left. */
  lemma TitleRegroup(a: string, sp: string, n: string, b: string, sn: string, state: string)
    ensures (a + sp) + n + (sp + (b + sp)) + sn + sp + state
         == a + (sp + (n + (sp + (b + (sp + (sn + (sp + state)))))))
  {
  }

  /** Two pieces without `c`, each followed by `c`, are the first two segments. */
  lemma TwoSegments(a: string, b: string, c: char, rest: string)
    requires NoChar(a, c) && NoChar(b, c)
    ensures Segments(a + ([c] + (b + ([c] + rest))), c) == [a, b] + Segments(rest, c)
  {
    SegmentsOf(b, c, rest);
    SegmentsOf(a, c, b + ([c] + rest));
  }

  /** Four pieces without `c`, each followed by `c`, are the first four segments. */
  lemma FourSegments(a: string, b: string, d: string, e: string, c: char, rest: string)
    requires NoChar(a, c) && NoChar(b, c) && NoChar(d, c) && NoChar(e, c)
    ensures Segments(a + ([c] + (b + ([c] + (d + ([c] + (e + ([c] + rest))))))), c)
         == [a, b, d, e] + Segments(rest, c)
  {
    var tail := Segments(rest, c);
    var r2 := d + ([c] + (e + ([c] + rest)));
    TwoSegments(d, e, c, rest);
    TwoSegments(a, b, c, r2);
    assert [a, b] + ([d, e] + tail) == [a, b, d, e] + tail;
  }

  /** The title, cut at each space of the template and grouped from the left. */
  lemma TitleAsPieces(pipelineName: Option<string>, stageName: Option<string>, state: string)
    ensures Title(pipelineName, stageName, state)
         == "Pipeline" + ([' '] + (Show(pipelineName) + ([' '] + ("stage" + ([' '] + (Show(stageName)
            + ([' '] + state)))))))
  {
    TitleLiterals();
    TitleRegroup("Pipeline", [' '], Show(pipelineName), "stage", Show(stageName), state);
  }

  /**
    When the names contain no space, the title's words are `Pipeline`, the
    pipeline name (`null` for a null name), `stage`, the stage name, and then
    the words of the state as it was sent, not lower-cased.
   */
  lemma TitleWords(pipelineName: Option<string>, stageName: Option<string>, state: string)
    requires NoChar(Show(pipelineName), ' ') && NoChar(Show(stageName), ' ')
    ensures Segments(Title(pipelineName, stageName, state), ' ')
         == ["Pipeline", Show(pipelineName), "stage", Show(stageName)] + Segments(state, ' ')
  {
    TitleAsPieces(pipelineName, stageName, state);
    TitleLiterals();
    FourSegments("Pipeline", Show(pipelineName), "stage", Show(stageName), ' ', state);
  }

  /**
    The link starts with the Go server URL and `/go/pipelines/`; when no value
    contains a slash, the rest of it is exactly the pipeline name, the pipeline
    counter, the stage name and the stage counter, slash-separated.
   */
  lemma MessageUrlSegments(goServerUrl: string, p: Pipeline, st: Stage)
    requires NoChar(Show(p.name), '/') && NoChar(Show(p.counter), '/')
    requires NoChar(Show(st.name), '/') && NoChar(Show(st.counter), '/')
    ensures
      var prefix := goServerUrl + "/go/pipelines/";
      var url := MessageUrl(goServerUrl, p, st);
      prefix <= url
      && Segments(url[|prefix|..], '/') == [Show(p.name), Show(p.counter), Show(st.name), Show(st.counter)]
  {
    var prefix := goServerUrl + "/go/pipelines/";
    var n, pc, sn, sc := Show(p.name), Show(p.counter), Show(st.name), Show(st.counter);
    var rest := n + (['/'] + (pc + (['/'] + (sn + (['/'] + sc)))));
    assert MessageUrl(goServerUrl, p, st) == prefix + rest;
    assert (prefix + rest)[|prefix|..] == rest;
    SegmentsOf(n, '/', pc + (['/'] + (sn + (['/'] + sc))));
    SegmentsOf(pc, '/', sn + (['/'] + sc));
    SegmentsOf(sn, '/', sc);
    SegmentsNoChar(sc, '/');
  }

  // ------------------------------------------------------- the request sent

  /**
    When a POST is attempted and the values contain no double quote, its body
    reads back as the sender's text, the title, an empty `picUrl` and the link
    to the stage run, each formatted from the request and the settings.
   */
  lemma DispatchedBody(settings: PluginSettings, request: StageStatusRequest,
                       nullMessage: Option<string>, transport: Transport)
    requires SendNotification(settings, request, nullMessage, transport).post.Some?
    requires NoChar(Text(settings.apiUser.value), '"')
    requires NoChar(Title(request.pipeline.value.name, request.pipeline.value.stage.value.name,
                          StateOf(request).value), '"')
    requires NoChar(MessageUrl(settings.goServerUrl.value, request.pipeline.value,
                                request.pipeline.value.stage.value), '"')
    ensures
      var p := request.pipeline.value;
      var st := p.stage.value;
      DecodeBody(SendNotification(settings, request, nullMessage, transport).post.value.body)
      == Some(Link(Text(settings.apiUser.value), Title(p.name, st.name, st.state.value), "",
                   MessageUrl(settings.goServerUrl.value, p, st)))
  {
    var p := request.pipeline.value;
    var st := p.stage.value;
    var text := Text(settings.apiUser.value);
    var title := Title(p.name, st.name, st.state.value);
    var url := MessageUrl(settings.goServerUrl.value, p, st);
    assert SendNotification(settings, request, nullMessage, transport).post.value.body
        == Body(text, title, url);
    BodyRoundTrip(text, title, url);
  }

  /**
    The POSTed body reads back exactly when the sender's text, the title and
    the link hold no double quote; then it gives them back unchanged.
   */
  lemma PostedBodyReadableIff(settings: PluginSettings, request: StageStatusRequest,
                              nullMessage: Option<string>, transport: Transport)
    requires SendNotification(settings, request, nullMessage, transport).post.Some?
    ensures
      var p := request.pipeline.value;
      var st := p.stage.value;
      var text := Text(settings.apiUser.value);
      var title := Title(p.name, st.name, st.state.value);
      var url := MessageUrl(settings.goServerUrl.value, p, st);
      var decoded := DecodeBody(SendNotification(settings, request, nullMessage, transport).post.value.body);
      && (decoded.Some? <==> NoChar(text, '"') && NoChar(title, '"') && NoChar(url, '"'))
      && (decoded.Some? ==> decoded == Some(Link(text, title, "", url)))
  {
    var p := request.pipeline.value;
    var st := p.stage.value;
    BodyReadableIff(Text(settings.apiUser.value), Title(p.name, st.name, st.state.value),
                    MessageUrl(settings.goServerUrl.value, p, st));
  }

  /** A double quote in the sender's name makes the POSTed body unreadable. */
  lemma QuotedSenderBreaksPost(settings: PluginSettings, request: StageStatusRequest,
                               nullMessage: Option<string>, transport: Transport)
    requires SendNotification(settings, request, nullMessage, transport).post.Some?
    requires !NoChar(settings.apiUser.value, '"')
    ensures DecodeBody(SendNotification(settings, request, nullMessage, transport).post.value.body) == None
  {
    var u := settings.apiUser.value;
    var k :| 0 <= k < |u| && u[k] == '"';
    assert Text(u)[k] == '"';
    PostedBodyReadableIff(settings, request, nullMessage, transport);
  }

}
