/**
 * `parse_date`: the natural-language parser reports the date expressions it
 * found in a text as spans (where the span starts, and the instant it
 * denotes, already anchored to the canonical offset); the last span wins and
 * the message body is the text before it, trimmed.
 */
module DateParse {

  import opened Wrappers
  import opened JsText
  import opened Clock

  /** One date expression found by the parser: its start index in the text and its instant. */
  datatype Span = Span(index: nat, start: Instant)

  datatype Parsed = Parsed(date: Instant, cleanText: string)

  /** `parse_date(text)`, given the parser's spans for `text`; `None` is `[undefined, undefined]`. */
  function ParseDate(text: string, spans: seq<Span>): (r: Option<Parsed>)
    ensures r.None? <==> spans == []
    ensures r.Some? ==> r.value.date == spans[|spans| - 1].start
    ensures r.Some? ==> r.value.cleanText == Trim(Prefix(text, spans[|spans| - 1].index))
    ensures r.Some? ==> IsTrimmed(r.value.cleanText)
    ensures r.Some? ==> |r.value.cleanText| <= spans[|spans| - 1].index
    ensures r.Some? ==> (r.value.cleanText == [] <==> AllSpace(Prefix(text, spans[|spans| - 1].index)))
  {
    if |spans| > 0 then
      var last := spans[|spans| - 1];
      Some(Parsed(last.start, Trim(Prefix(text, last.index))))
    else None
  }

  /** The message body is a piece of the text that lies before the last span. */
  lemma BodyBeforeLastSpan(text: string, spans: seq<Span>)
    requires spans != []
    ensures var last := spans[|spans| - 1];
            var body := ParseDate(text, spans).value.cleanText;
            exists i :: OccursAt(text, body, i) && i + |body| <= last.index
  {
    var last := spans[|spans| - 1];
    var p := Prefix(text, last.index);
    var body := Trim(p);
    var i := TrimOffset(p);
    PrefixSlice(text, last.index, i, i + |body|);
    assert OccursAt(text, body, i);
  }

  /** A slice of a prefix is the same slice of the whole text. */
  lemma PrefixSlice(text: string, n: nat, i: nat, j: nat)
    requires i <= j <= |Prefix(text, n)|
    ensures j <= |text| && Prefix(text, n)[i..j] == text[i..j]
  {
  }

  /** Only the last span matters: earlier date expressions are part of the message. */
  lemma LastSpanWins(text: string, earlier: seq<Span>, last: Span)
    ensures ParseDate(text, earlier + [last]) == ParseDate(text, [last])
  {
  }

  /** Text after the start of the last span is discarded. */
  lemma TrailingTextIgnored(text: string, extra: string, spans: seq<Span>)
    requires spans != [] && spans[|spans| - 1].index <= |text|
    ensures ParseDate(text + extra, spans) == ParseDate(text, spans)
  {
    var n := spans[|spans| - 1].index;
    assert Prefix(text + extra, n) == Prefix(text, n);
  }

  /** A body followed by one date expression yields that date and the trimmed body. */
  lemma OneTrailingDate(body: string, dateText: string, when: Instant)
    ensures ParseDate(body + dateText, [Span(|body|, when)]) == Some(Parsed(when, Trim(body)))
  {
    assert Prefix(body + dateText, |body|) == body;
  }
}
