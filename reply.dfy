/** Turning the model's raw reply text into an answer and an optional
    follow-up question (build-google-gemini/src/components/ChatBox.jsx,
    lines 54-68). The reply is searched for a brace-delimited span, the span
    is handed to JSON.parse, and every way this can go wrong falls back to
    the raw text with no follow-up. */
module Reply {
  import opened JsBuiltins

  /** What JSON.parse makes of the braced span, as far as the component
      reads it. The span starts with `{`, so JSON.parse either throws a
      SyntaxError or returns an object, whose `answer` and `followup`
      properties may be missing. */
  datatype Decoded = SyntaxError | Object(answer: Option<string>, followup: Option<string>)

  /** JSON.parse is not modelled: it is any deterministic function from the
      span's text to a decoding outcome. */
  type Decoder = string -> Decoded

  /** The `{ answer, followup }` record the component displays; a `null`
      follow-up is None. */
  datatype StructuredReply = StructuredReply(answer: string, followup: Option<string>)

  const NoResponse := "No response received."

  /** Line 54: the reply text at `candidates[0].content.parts[0].text`, or
      the placeholder when that path is missing or the text is empty. */
  function ReplyText(candidate: Option<string>): (text: string)
    ensures text != ""
    ensures Truthy(candidate) ==> text == candidate.value
    ensures !Truthy(candidate) ==> text == NoResponse
  {
    if Truthy(candidate) then candidate.value else NoResponse
  }

  // ---------------------------------------------------------------------
  // The regular expression /\{[\s\S]*\}/ and String.prototype.match
  // ---------------------------------------------------------------------

  /** The pattern matches `text[i..j]`: an opening brace, any characters,
      a closing brace. */
  ghost predicate Matches(text: string, i: int, j: int)
  {
    0 <= i && i + 2 <= j <= |text| && text[i] == '{' && text[j - 1] == '}'
  }

  /** What `text.match(/\{[\s\S]*\}/)` reports: of all matches, the one that
      starts leftmost, and among those the longest, since `*` is greedy. */
  ghost predicate IsRegexMatch(text: string, i: int, j: int)
  {
    Matches(text, i, j) &&
    (forall i', j' :: 0 <= i' < i && i' <= j' <= |text| ==> !Matches(text, i', j')) &&
    (forall j' :: j < j' <= |text| ==> !Matches(text, i, j'))
  }

  /** A half-open range `[start, end)` of positions in the reply text. */
  datatype Span = Span(start: nat, end: nat)

  /** Where the pattern matches: from the first `{` to the last `}`,
      provided that `}` comes after that `{`. */
  function FindMatch(text: string): (m: Option<Span>)
    ensures m.Some? ==> Matches(text, m.value.start, m.value.end)
  {
    match FirstIndexOf(text, '{')
    case None => None
    case Some(i) =>
      match LastIndexOf(text, '}')
      case None => None
      case Some(j) => if i < j then Some(Span(i, j + 1)) else None
  }

  /** The span found is the match the regular expression reports, and there
      is none exactly when the pattern matches nowhere in the text. */
  lemma FindMatchIsRegexMatch(text: string)
    ensures FindMatch(text).Some? ==> IsRegexMatch(text, FindMatch(text).value.start, FindMatch(text).value.end)
    ensures FindMatch(text).None? <==> forall i, j :: 0 <= i <= j <= |text| ==> !Matches(text, i, j)
  {
  }

  /** `s` is the piece of `text` at position `i` that the pattern matches
      as `match` reports it. */
  ghost predicate MatchedAt(text: string, s: string, i: int)
  {
    0 <= i <= |text| - |s| && IsRegexMatch(text, i, i + |s|) && s == text[i..i + |s|]
  }

  /** `jsonMatch[0]`: the matched substring, or None when there is no match. */
  function ExtractBraced(text: string): (r: Option<string>)
    ensures r.Some? ==> 2 <= |r.value| <= |text| && r.value[0] == '{' && r.value[|r.value| - 1] == '}'
  {
    match FindMatch(text)
    case None => None
    case Some(span) => Some(text[span.start..span.end])
  }

  /** `jsonMatch[0]` is a contiguous piece of the reply, exactly the piece
      the regular expression matches, and `jsonMatch` is null exactly when
      the pattern matches nowhere. */
  lemma ExtractBracedIsRegexMatch(text: string)
    ensures ExtractBraced(text).Some? ==> exists i :: MatchedAt(text, ExtractBraced(text).value, i)
    ensures ExtractBraced(text).None? <==> forall i, j :: 0 <= i <= j <= |text| ==> !Matches(text, i, j)
  {
    FindMatchIsRegexMatch(text);
    var m := FindMatch(text);
    if m.Some? {
      assert MatchedAt(text, ExtractBraced(text).value, m.value.start);
    }
  }

  /** The regular-expression match is determined uniquely by the text. */
  lemma RegexMatchUnique(text: string, i1: int, j1: int, i2: int, j2: int)
    requires IsRegexMatch(text, i1, j1) && IsRegexMatch(text, i2, j2)
    ensures i1 == i2 && j1 == j2
  {
  }

  /** The match in plain terms: it exists exactly when some `}` follows the
      first `{`, and then it runs from that first `{` to the last `}`. */
  lemma {:induction false} MatchIsFirstOpenToLastClose(text: string)
    ensures FindMatch(text).Some? <==>
            exists a, b :: 0 <= a < b < |text| && text[a] == '{' && text[b] == '}' &&
                           (forall k :: 0 <= k < a ==> text[k] != '{')
    ensures FindMatch(text).Some? ==>
              var m := FindMatch(text).value;
              text[m.start] == '{' && (forall k :: 0 <= k < m.start ==> text[k] != '{') &&
              text[m.end - 1] == '}' && (forall k :: m.end <= k < |text| ==> text[k] != '}')
  {
    FindMatchIsRegexMatch(text);
    var m := FindMatch(text);
    if m.Some? {
      var a, b := m.value.start, m.value.end - 1;
      assert Matches(text, a, b + 1);
      forall k | 0 <= k < a ensures text[k] != '{' {
        assert !Matches(text, k, b + 1);
      }
      forall k | b + 1 <= k < |text| ensures text[k] != '}' {
        assert !Matches(text, a, k + 1);
      }
    } else {
      forall a, b | 0 <= a < b < |text| && text[a] == '{'
        ensures text[b] != '}'
      {
        assert !Matches(text, a, b + 1);
      }
    }
  }

  // ---------------------------------------------------------------------
  // Structuring the reply (lines 56-68)
  // ---------------------------------------------------------------------

  /** The fallback of lines 61, 64 and 67: the whole raw text, no follow-up. */
  function RawAnswer(text: string): StructuredReply
  {
    StructuredReply(text, None)
  }

  /** Lines 56-68: extract the braced span, decode it, keep a truthy
      `answer` and a truthy `followup`, and fall back to the raw text when
      there is no span, the span does not decode, or `answer` is falsy. */
  function Structure(text: string, decode: Decoder): (r: StructuredReply)
    ensures text != "" ==> r.answer != ""
    ensures r.followup.Some? ==> r.followup.value != ""
  {
    match ExtractBraced(text)
    case None => RawAnswer(text)
    case Some(json) =>
      match decode(json)
      case SyntaxError => RawAnswer(text)
      case Object(answer, followup) =>
        if !Truthy(answer) then RawAnswer(text)
        else StructuredReply(answer.value, if Truthy(followup) then followup else None)
  }

  /** Line 64: no braced span means the raw text is the answer, whatever
      JSON.parse would have done. */
  lemma NoMatchGivesRawText(text: string, decode: Decoder)
    requires forall a, b :: 0 <= a < b < |text| && text[a] == '{' ==> text[b] != '}'
    ensures Structure(text, decode) == RawAnswer(text)
  {
    ExtractBracedIsRegexMatch(text);
    forall i, j | 0 <= i <= j <= |text| ensures !Matches(text, i, j) {
      if i + 2 <= j {
        assert text[i] == '{' ==> text[j - 1] != '}';
      }
    }
  }

  /** Line 67: a span that JSON.parse rejects means the raw text is the answer. */
  lemma SyntaxErrorGivesRawText(text: string, decode: Decoder)
    requires ExtractBraced(text).Some? && decode(ExtractBraced(text).value).SyntaxError?
    ensures Structure(text, decode) == RawAnswer(text)
  {
  }

  /** Line 61: a decoded object whose `answer` is missing or empty means the
      raw text is the answer and there is no follow-up, even when the object
      has a `followup`. */
  lemma FalsyAnswerGivesRawText(text: string, decode: Decoder)
    requires ExtractBraced(text).Some?
    requires decode(ExtractBraced(text).value).Object?
    requires !Truthy(decode(ExtractBraced(text).value).answer)
    ensures Structure(text, decode) == RawAnswer(text)
  {
  }

  /** Lines 60-62: a truthy decoded `answer` is kept as it is; the decoded
      `followup` is kept when truthy and becomes `null` otherwise. */
  lemma TruthyAnswerKept(text: string, decode: Decoder, answer: string, followup: Option<string>)
    requires ExtractBraced(text).Some?
    requires decode(ExtractBraced(text).value) == Object(Some(answer), followup)
    requires answer != ""
    ensures Structure(text, decode).answer == answer
    ensures Structure(text, decode).followup == if Truthy(followup) then followup else None
  {
  }

  /** A follow-up question is offered only when the reply held a braced span
      that decoded to an object with a non-empty answer and that very
      follow-up, and then the answer shown is the decoded one. */
  lemma FollowupComesFromDecodedObject(text: string, decode: Decoder)
    requires Structure(text, decode).followup.Some?
    ensures ExtractBraced(text).Some?
    ensures var d := decode(ExtractBraced(text).value);
            d.Object? && Truthy(d.answer) && d.followup == Structure(text, decode).followup &&
            Structure(text, decode).answer == d.answer.value
  {
  }

  /** Whatever the endpoint returned and whatever JSON.parse does, the
      displayed answer is never empty. */
  lemma {:induction false} AnswerNeverEmpty(candidate: Option<string>, decode: Decoder)
    ensures Structure(ReplyText(candidate), decode).answer != ""
  {
  }

  /** A reply without any braces is shown as it is. */
  lemma PlainSentenceExample(decode: Decoder)
    ensures Structure("The answer is 42.", decode) == StructuredReply("The answer is 42.", None)
  {
    var text := "The answer is 42.";
    assert '{' !in text;
    NoMatchGivesRawText(text, decode);
  }

  const AnswerObject := "{\"answer\":\"42\",\"followup\":\"Why?\"}"

  /** A span that opens at the first `{` and closes at the last `}` is the
      match the regular expression reports. */
  lemma FirstOpenToLastCloseIsRegexMatch(text: string, i: nat, j: nat)
    requires i + 2 <= j <= |text| && text[i] == '{' && text[j - 1] == '}'
    requires forall k :: 0 <= k < i ==> text[k] != '{'
    requires forall k :: j <= k < |text| ==> text[k] != '}'
    ensures IsRegexMatch(text, i, j)
  {
  }

  /** In a reply that is brace-free prose, then an object, then text
      without a closing brace (a closing code fence, say), the match is
      exactly the object, whatever the object holds inside. */
  lemma {:induction false} ObjectInProseIsMatched(prose: string, obj: string, tail: string)
    requires '{' !in prose && '}' !in tail
    requires |obj| >= 2 && obj[0] == '{' && obj[|obj| - 1] == '}'
    ensures ExtractBraced(prose + obj + tail) == Some(obj)
  {
    var text := prose + obj + tail;
    var p, e := |prose|, |prose| + |obj|;
    assert text[p] == '{' && text[e - 1] == '}';
    forall k | 0 <= k < p ensures text[k] != '{' {
      assert text[k] == prose[k];
    }
    forall k | e <= k < |text| ensures text[k] != '}' {
      assert text[k] == tail[k - e];
    }
    FirstOpenToLastCloseIsRegexMatch(text, p, e);
    ExtractBracedIsRegexMatch(text);
    var r := ExtractBraced(text).value;
    var i :| MatchedAt(text, r, i);
    RegexMatchUnique(text, i, i + |r|, p, e);
    assert r == text[p..e];
  }

  /** A reply object embedded between some prose and a closing code fence
      is found and its fields are used, provided JSON.parse decodes it in
      the usual way. */
  lemma EmbeddedObjectExample(decode: Decoder)
    requires decode(AnswerObject) == Object(Some("42"), Some("Why?"))
    ensures Structure("Sure:\n```json\n" + AnswerObject + "\n```", decode) == StructuredReply("42", Some("Why?"))
  {
    var prose, tail := "Sure:\n```json\n", "\n```";
    ObjectInProseIsMatched(prose, AnswerObject, tail);
    var r := Structure(prose + AnswerObject + tail, decode);
    assert Truthy(Some("42")) && Truthy(Some("Why?"));
    assert r == StructuredReply("42", Some("Why?"));
  }

  /** Valid JSON without an `answer` property leaves the raw text as the answer. */
  lemma MissingAnswerExample(decode: Decoder)
    requires decode("{\"foo\":\"bar\"}") == Object(None, None)
    ensures Structure("{\"foo\":\"bar\"}", decode) == RawAnswer("{\"foo\":\"bar\"}")
  {
    var text := "{\"foo\":\"bar\"}";
    assert IsRegexMatch(text, 0, |text|);
    ExtractBracedIsRegexMatch(text);
    var r := ExtractBraced(text).value;
    var i :| MatchedAt(text, r, i);
    RegexMatchUnique(text, i, i + |r|, 0, |text|);
    assert r == text;
  }
}
