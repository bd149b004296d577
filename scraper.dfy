/**
 * The ingestion rules of news/utils/scraper.py: text cleaning for speech,
 * the selector-based fallback extractor, the summary retry policy, the
 * audio result, category seeding and the `fetch_articles` orchestrator.
 * Every network, parser, model and speech call is an input: the texts a
 * selector yields, the outcome of each model call, whether speech synthesis
 * or a save succeeds.
 */
module Scraper {
  import opened Wrappers
  import opened PyStr
  import opened Models

  // ---------------------------------------------------------------------
  // clean_text_for_speech
  // ---------------------------------------------------------------------

  predicate IsLineBreak(c: char) {
    c == '\r' || c == '\n'
  }

  /** The punctuation `clean_text_for_speech` keeps: , . ! ? ' " */
  predicate IsSpeechPunctuation(c: char) {
    c == ',' || c == '.' || c == '!' || c == '?' || c == '\'' || c == '"'
  }

  /** The class `[\w\s,.!?'"]`. */
  predicate IsKept(c: char) {
    IsWordChar(c) || IsSpace(c) || IsSpeechPunctuation(c)
  }

  /** A character that carries content: a word character or kept punctuation. */
  predicate IsVisible(c: char) {
    IsWordChar(c) || IsSpeechPunctuation(c)
  }

  /** What cleaned text may contain: visible characters and plain spaces. */
  predicate IsSpeechChar(c: char) {
    IsVisible(c) || c == ' '
  }

  /** The visible characters of `s`, in order. */
  function Visible(s: string): string {
    if s == [] then [] else (if IsVisible(s[0]) then [s[0]] else []) + Visible(s[1..])
  }

  /** `re.sub('<class>+', ' ', s)`: every maximal run of characters satisfying `p` becomes one space. */
  function ReplaceRuns(s: string, p: char -> bool): string {
    if s == [] then []
    else if p(s[0]) && |s| > 1 && p(s[1]) then ReplaceRuns(s[1..], p)
    else if p(s[0]) then [' '] + ReplaceRuns(s[1..], p)
    else [s[0]] + ReplaceRuns(s[1..], p)
  }

  /** `re.sub(r'[^\w\s,.!?\'"]', '', s)`. */
  function RemoveDisallowed(s: string): string {
    if s == [] then [] else (if IsKept(s[0]) then [s[0]] else []) + RemoveDisallowed(s[1..])
  }

  /** `clean_text_for_speech`: "" for no text; otherwise line breaks and whitespace runs become single spaces, other characters outside the kept class are dropped, and the ends are stripped. */
  function CleanTextForSpeech(text: Option<string>): (speech: string)
    ensures speech == [] || (speech[0] != ' ' && speech[|speech| - 1] != ' ')
  {
    if text.None? || text.value == [] then []
    else Strip(RemoveDisallowed(ReplaceRuns(ReplaceRuns(text.value, IsLineBreak), IsSpace)))
  }

  lemma {:induction false} VisibleConcat(a: string, b: string)
    ensures Visible(a + b) == Visible(a) + Visible(b)
  {
    if a == [] {
      assert a + b == b;
    } else {
      var ab := a + b;
      var head := if IsVisible(a[0]) then [a[0]] else [];
      assert ab[0] == a[0];
      assert ab[1..] == a[1..] + b;
      VisibleConcat(a[1..], b);
      calc {
        Visible(ab);
        head + Visible(a[1..] + b);
        head + (Visible(a[1..]) + Visible(b));
        (head + Visible(a[1..])) + Visible(b);
      }
    }
  }

  lemma {:induction false} VisibleOfSpaces(s: string)
    requires forall i :: 0 <= i < |s| ==> IsSpace(s[i])
    ensures Visible(s) == []
  {
    if s != [] {
      VisibleOfSpaces(s[1..]);
    }
  }

  lemma {:induction false} ReplaceRunsFacts(s: string, p: char -> bool)
    requires forall c :: p(c) ==> IsSpace(c)
    ensures var r := ReplaceRuns(s, p);
      && Visible(r) == Visible(s)
      && forall i :: 0 <= i < |r| ==> r[i] == ' ' || (!p(r[i]) && r[i] in s)
  {
    if s != [] {
      ReplaceRunsFacts(s[1..], p);
    }
  }

  lemma {:induction false} RemoveDisallowedFacts(s: string)
    requires forall i :: 0 <= i < |s| ==> s[i] == ' ' || !IsSpace(s[i])
    ensures var r := RemoveDisallowed(s);
      && Visible(r) == Visible(s)
      && forall i :: 0 <= i < |r| ==> IsSpeechChar(r[i])
  {
    if s != [] {
      RemoveDisallowedFacts(s[1..]);
      var head := if IsKept(s[0]) then [s[0]] else [];
      VisibleConcat(head, RemoveDisallowed(s[1..]));
    }
  }

  lemma StripLeftVisible(s: string)
    ensures Visible(StripLeft(s)) == Visible(s)
  {
    var l := StripLeft(s);
    var pre := s[..|s| - |l|];
    assert s == pre + l;
    VisibleOfSpaces(pre);
    VisibleConcat(pre, l);
  }

  lemma StripRightVisible(s: string)
    ensures Visible(StripRight(s)) == Visible(s)
  {
    var r := StripRight(s);
    var suf := s[|r|..];
    assert s == r + suf;
    VisibleOfSpaces(suf);
    VisibleConcat(r, suf);
  }

  lemma StripFacts(s: string)
    requires forall i :: 0 <= i < |s| ==> IsSpeechChar(s[i])
    ensures var r := Strip(s);
      && Visible(r) == Visible(s)
      && forall i :: 0 <= i < |r| ==> IsSpeechChar(r[i])
  {
    var l := StripLeft(s);
    StripLeftVisible(s);
    StripRightVisible(l);
    var r := StripRight(l);
    forall i | 0 <= i < |r|
      ensures IsSpeechChar(r[i])
    {
      assert r[i] == l[i] == s[|s| - |l| + i];
    }
  }

  /**
   * What `clean_text_for_speech` promises: no text gives ""; otherwise the
   * result holds only word characters, plain spaces and , . ! ? ' ", has
   * no whitespace at either end (so no newline or tab survives), and keeps
   * every visible character of the input in order.
   */
  lemma CleanTextForSpeechShape(text: Option<string>)
    ensures var r := CleanTextForSpeech(text);
      && (text.None? || text.value == [] ==> r == [])
      && (forall i :: 0 <= i < |r| ==> IsSpeechChar(r[i]))
      && (r == [] || (r[0] != ' ' && r[|r| - 1] != ' '))
      && (text.Some? ==> Visible(r) == Visible(text.value))
  {
    if text.Some? && text.value != [] {
      var s1 := ReplaceRuns(text.value, IsLineBreak);
      var s2 := ReplaceRuns(s1, IsSpace);
      ReplaceRunsFacts(text.value, IsLineBreak);
      ReplaceRunsFacts(s1, IsSpace);
      RemoveDisallowedFacts(s2);
      StripFacts(RemoveDisallowed(s2));
    }
  }

  /** Cleaning leaves nothing exactly when the text has no visible character. */
  lemma CleanedEmptyIff(text: string)
    requires text != []
    ensures CleanTextForSpeech(Some(text)) == [] <==> Visible(text) == []
  {
    CleanTextForSpeechShape(Some(text));
    var r := CleanTextForSpeech(Some(text));
    if r != [] {
      assert IsVisible(r[0]);
      assert Visible(r) == [r[0]] + Visible(r[1..]);
    }
  }

  // ---------------------------------------------------------------------
  // generate_audio_summary
  // ---------------------------------------------------------------------

  const AudioDir: string := "news_audio"

  /** `f"summary_{article_id}.mp3"`. */
  function AudioFileName(id: ArticleId): string {
    "summary_" + NatToString(id) + ".mp3"
  }

  /** `os.path.join(MEDIA_URL, 'news_audio', filename)`: the URL `generate_audio_summary` returns. */
  function AudioUrl(mediaUrl: string, id: ArticleId): string {
    PathJoin(PathJoin(mediaUrl, AudioDir), AudioFileName(id))
  }

  /** `os.path.join('news_audio', f"summary_{article.id}.mp3")`: the file name `fetch_articles` stores. */
  function AudioName(id: ArticleId): string {
    PathJoin(AudioDir, AudioFileName(id))
  }

  /**
   * `generate_audio_summary(text, article_id)`: None for missing or empty
   * text, for text that cleaning empties, and when speech synthesis or
   * writing the file fails (`ttsOk` false); otherwise the audio URL.
   */
  function GenerateAudioSummary(text: Option<string>, articleId: ArticleId, ttsOk: bool, mediaUrl: string): (url: Option<string>)
    ensures url.Some? <==> text.Some? && Visible(text.value) != [] && ttsOk
    ensures url.Some? ==> url.value == AudioUrl(mediaUrl, articleId)
  {
    if text.None? || text.value == [] then
      None
    else
      CleanedEmptyIff(text.value);
      if CleanTextForSpeech(text) == [] then None
      else if !ttsOk then None
      else Some(AudioUrl(mediaUrl, articleId))
  }

  /** Two articles never share an audio file name. */
  lemma AudioFileNameInjective(a: ArticleId, b: ArticleId)
    requires AudioFileName(a) == AudioFileName(b)
    ensures a == b
  {
    var sa, sb := AudioFileName(a), AudioFileName(b);
    assert sa[8..|sa| - 4] == NatToString(a);
    assert sb[8..|sb| - 4] == NatToString(b);
    ParseNatToString(a);
    ParseNatToString(b);
  }

  /** Two articles never share an audio URL. */
  lemma AudioUrlInjective(mediaUrl: string, a: ArticleId, b: ArticleId)
    requires AudioUrl(mediaUrl, a) == AudioUrl(mediaUrl, b)
    ensures a == b
  {
    var dir := PathJoin(mediaUrl, AudioDir);
    var fa, fb := AudioFileName(a), AudioFileName(b);
    assert fa[0] == 's' && fb[0] == 's';
    var prefix := if dir == [] || dir[|dir| - 1] == '/' then dir else dir + "/";
    assert AudioUrl(mediaUrl, a) == prefix + fa;
    assert AudioUrl(mediaUrl, b) == prefix + fb;
    assert fa == (prefix + fa)[|prefix|..];
    assert fb == (prefix + fb)[|prefix|..];
    AudioFileNameInjective(a, b);
  }

  /** A media URL as Django accepts it: empty, or ending with a slash. */
  predicate MediaUrlOk(mediaUrl: string) {
    mediaUrl == [] || mediaUrl[|mediaUrl| - 1] == '/'
  }

  /**
   * Removing the first occurrence of MEDIA_URL from the audio URL (what the
   * audio views store) gives the same name `fetch_articles` stores, and
   * serving that name under MEDIA_URL gives the audio URL back.
   */
  lemma AudioNameRoundTrip(mediaUrl: string, id: ArticleId)
    requires MediaUrlOk(mediaUrl)
    ensures RemoveFirst(AudioUrl(mediaUrl, id), mediaUrl) == AudioName(id)
    ensures mediaUrl + AudioName(id) == AudioUrl(mediaUrl, id)
  {
    var f := AudioFileName(id);
    assert f[0] == 's';
    assert AudioName(id) == AudioDir + "/" + f;
    if mediaUrl != [] {
      var url := AudioUrl(mediaUrl, id);
      assert url == mediaUrl + AudioName(id);
      assert url[..|mediaUrl|] == mediaUrl;
    }
  }

  // ---------------------------------------------------------------------
  // fetch_full_article_content_fallback
  // ---------------------------------------------------------------------

  /** The content selectors, most specific first. */
  const Selectors: seq<string> := [
    "[data-component=\"text-block\"]",
    ".ssrcss-1q0x1qg-Paragraph",
    ".story-body__inner p",
    ".zn-body__paragraph",
    ".el__leafmedia--sourced-paragraph",
    ".StandardArticleBody_body p",
    "article p",
    ".article-content p",
    ".entry-content p",
    ".post-content p",
    "p"
  ]

  /** A selector is considered only when it matches at least this many elements. */
  const MinMatches: nat := 3
  /** A block is kept only when its stripped text is longer than this. */
  const MinBlockLength: nat := 40
  /** At most this many blocks are joined. */
  const MaxBlocks: nat := 12
  /** Extracted content counts only when it is longer than this (fallback) or at least this long (orchestrator). */
  const MinContentLength: nat := 200

  const BlockSeparator: string := "\n\n"

  /** The texts longer than 40 characters, in order. */
  function LongTexts(texts: seq<string>): (kept: seq<string>)
    ensures |kept| <= |texts|
  {
    if texts == [] then []
    else
      var last := texts[|texts| - 1];
      assert texts == texts[..|texts| - 1] + [last];
      LongTexts(texts[..|texts| - 1]) + (if |last| > MinBlockLength then [last] else [])
  }

  /** The kept blocks are exactly the texts longer than 40 characters. */
  lemma LongTextsExactly(texts: seq<string>)
    ensures var kept := LongTexts(texts);
      && (forall k :: 0 <= k < |kept| ==> |kept[k]| > MinBlockLength && kept[k] in texts)
      && (forall t :: t in texts && |t| > MinBlockLength ==> t in kept)
  {
    LongTextsKept(texts);
    LongTextsComplete(texts);
  }

  lemma {:induction false} LongTextsKept(texts: seq<string>)
    ensures forall k :: 0 <= k < |LongTexts(texts)| ==>
      |LongTexts(texts)[k]| > MinBlockLength && LongTexts(texts)[k] in texts
  {
    if texts != [] {
      var init, last := texts[..|texts| - 1], texts[|texts| - 1];
      LongTextsKept(init);
      var head := LongTexts(init);
      var kept := head + (if |last| > MinBlockLength then [last] else []);
      assert LongTexts(texts) == kept;
      forall k | 0 <= k < |kept|
        ensures |kept[k]| > MinBlockLength && kept[k] in texts
      {
        if k < |head| {
          assert kept[k] == head[k] && head[k] in init;
          var m :| 0 <= m < |init| && init[m] == kept[k];
          assert texts[m] == init[m];
        } else {
          assert kept[k] == last == texts[|texts| - 1];
        }
      }
    }
  }

  lemma {:induction false} LongTextsComplete(texts: seq<string>)
    ensures forall t :: t in texts && |t| > MinBlockLength ==> t in LongTexts(texts)
  {
    if texts != [] {
      var init, last := texts[..|texts| - 1], texts[|texts| - 1];
      LongTextsComplete(init);
      var head := LongTexts(init);
      var kept := head + (if |last| > MinBlockLength then [last] else []);
      assert LongTexts(texts) == kept;
      forall t | t in texts && |t| > MinBlockLength
        ensures t in kept
      {
        var m :| 0 <= m < |texts| && texts[m] == t;
        if m < |init| {
          assert init[m] == t;
          assert t in head;
        } else {
          assert t == last;
        }
      }
    }
  }

  /** A selector whose matches end the search. */
  predicate Qualifies(texts: seq<string>) {
    |texts| >= MinMatches && LongTexts(texts) != []
  }

  /** The blocks the selector search settles on, trying selectors from index `i` on; `select` gives the stripped texts of a selector's matches. */
  function ChosenBlocks(select: string -> seq<string>, i: nat): (blocks: seq<string>)
    requires i <= |Selectors|
    ensures blocks == [] || exists s :: i <= s < |Selectors| && blocks == LongTexts(select(Selectors[s]))
    decreases |Selectors| - i
  {
    if i == |Selectors| then []
    else if Qualifies(select(Selectors[i])) then LongTexts(select(Selectors[i]))
    else ChosenBlocks(select, i + 1)
  }

  /**
   * The search takes the long texts of the first selector (in the listed
   * order) that matches at least 3 elements and keeps at least one block;
   * when none does, no block.
   */
  lemma {:induction false} ChosenBlocksIsFirstQualifying(select: string -> seq<string>, i: nat)
    requires i <= |Selectors|
    decreases |Selectors| - i
    ensures var chosen := ChosenBlocks(select, i);
      || (chosen == [] && forall k :: i <= k < |Selectors| ==> !Qualifies(select(Selectors[k])))
      || exists q :: i <= q < |Selectors| && Qualifies(select(Selectors[q]))
           && chosen == LongTexts(select(Selectors[q]))
           && forall k :: i <= k < q ==> !Qualifies(select(Selectors[k]))
  {
    if i < |Selectors| {
      var texts := select(Selectors[i]);
      var chosen := ChosenBlocks(select, i);
      if Qualifies(texts) {
        assert chosen == LongTexts(texts);
        assert i <= i < |Selectors| && Qualifies(select(Selectors[i])) && chosen == LongTexts(select(Selectors[i]));
      } else {
        ChosenBlocksIsFirstQualifying(select, i + 1);
        assert chosen == ChosenBlocks(select, i + 1);
        if chosen != [] || exists k :: i + 1 <= k < |Selectors| && Qualifies(select(Selectors[k])) {
          var q :| i + 1 <= q < |Selectors| && Qualifies(select(Selectors[q]))
            && chosen == LongTexts(select(Selectors[q]))
            && forall k :: i + 1 <= k < q ==> !Qualifies(select(Selectors[k]));
          assert forall k :: i <= k < q ==> !Qualifies(select(Selectors[k]));
        }
      }
    }
  }

  /** The fallback's verdict on the cleaned, joined text: it counts only when longer than 200 characters. */
  function Threshold(full: string): (r: Option<string>)
    ensures r.Some? <==> |full| > MinContentLength
    ensures r.Some? ==> r.value == full
  {
    if |full| > MinContentLength then Some(full) else None
  }

  /** The inner loop of the fallback: the texts longer than 40 characters, appended in order. */
  method KeepLongTexts(elements: seq<string>) returns (blocks: seq<string>)
    ensures blocks == LongTexts(elements)
  {
    blocks := [];
    var j := 0;
    while j < |elements|
      invariant 0 <= j <= |elements|
      invariant blocks == LongTexts(elements[..j])
    {
      assert elements[..j + 1][..j] == elements[..j];
      if |elements[j]| > MinBlockLength {
        blocks := blocks + [elements[j]];
      }
      j := j + 1;
    }
    assert elements[..j] == elements;
  }

  /**
   * `fetch_full_article_content_fallback`: `fetchOk` is false when the page
   * request fails; `select` gives, per selector, the stripped texts of its
   * matches in the page with non-content tags removed; `cleanHtml` is the
   * tag stripping applied to the joined text.
   */
  method FetchFullArticleContentFallback(fetchOk: bool, select: string -> seq<string>, cleanHtml: string -> string)
    returns (content: Option<string>)
    ensures !fetchOk ==> content == None
    ensures fetchOk ==> content == Threshold(cleanHtml(Join(Take(ChosenBlocks(select, 0), MaxBlocks), BlockSeparator)))
  {
    if !fetchOk {
      return None;
    }
    var blocks: seq<string> := [];
    var i := 0;
    while i < |Selectors|
      invariant 0 <= i <= |Selectors|
      invariant blocks == [] || (i < |Selectors| && Qualifies(select(Selectors[i])) && blocks == LongTexts(select(Selectors[i])))
      invariant ChosenBlocks(select, 0) == ChosenBlocks(select, i)
    {
      var elements := select(Selectors[i]);
      if |elements| >= MinMatches {
        blocks := KeepLongTexts(elements);
        if blocks != [] {
          break;
        }
      }
      i := i + 1;
    }
    assert blocks == ChosenBlocks(select, i);
    var full := cleanHtml(Join(Take(blocks, MaxBlocks), BlockSeparator));
    content := Threshold(full);
  }

  // ---------------------------------------------------------------------
  // get_summary_from_gemini
  // ---------------------------------------------------------------------

  /** The outcome of one call to the generative model. */
  datatype Outcome = Success(text: string) | RateLimited | OtherError

  const NotAvailable: string := "Summary not available."
  const CouldNotGenerate: string := "Summary could not be generated."
  const RateLimitFailure: string := "Summary could not be generated due to API rate limits."

  const MaxAttempts: nat := 3
  /** The wait after the rate-limited attempt k (counted from 0) is 15 * (k + 1) seconds. */
  const BackoffStep: nat := 15

  /** The returned text, the waits requested (in seconds, in order) and the number of model calls. */
  datatype SummaryRun = SummaryRun(text: string, waits: seq<nat>, calls: nat)

  /** The retry loop from attempt `k` on; `attempt(k)` is the outcome of the k-th call. */
  function RetryFrom(attempt: nat -> Outcome, k: nat): (run: SummaryRun)
    requires k <= MaxAttempts
    ensures k <= run.calls <= MaxAttempts && |run.waits| <= run.calls - k
    decreases MaxAttempts - k
  {
    if k == MaxAttempts then SummaryRun(RateLimitFailure, [], k)
    else match attempt(k)
      case Success(t) => SummaryRun(t, [], k + 1)
      case OtherError => SummaryRun(CouldNotGenerate, [], k + 1)
      case RateLimited =>
        var rest := RetryFrom(attempt, k + 1);
        SummaryRun(rest.text, [BackoffStep * (k + 1)] + rest.waits, rest.calls)
  }

  /** What `get_summary_from_gemini(content)` does, given the outcome of each model call. */
  function Summarize(content: Option<string>, attempt: nat -> Outcome): (run: SummaryRun)
    ensures run.calls <= MaxAttempts && |run.waits| <= run.calls
  {
    if content.None? || |content.value| < MinContentLength then SummaryRun(NotAvailable, [], 0)
    else RetryFrom(attempt, 0)
  }

  /** The waits after `n` rate-limited attempts: 15, 30, 45, ... seconds. */
  function Backoffs(n: nat): seq<nat> {
    seq(n, i requires 0 <= i < n => BackoffStep * (i + 1))
  }

  /** The text the loop returns once attempt `f` is the first that was not rate limited (`f` = 3: none was). */
  function SettledText(attempt: nat -> Outcome, f: nat): string {
    if f >= MaxAttempts then RateLimitFailure
    else match attempt(f)
      case Success(t) => t
      case _ => CouldNotGenerate
  }

  lemma {:induction false} RetryFromSettled(attempt: nat -> Outcome, k: nat, f: nat)
    requires k <= f <= MaxAttempts
    requires forall j :: k <= j < f ==> attempt(j) == RateLimited
    requires f < MaxAttempts ==> attempt(f) != RateLimited
    decreases f - k
    ensures RetryFrom(attempt, k) == SummaryRun(
      SettledText(attempt, f),
      seq(f - k, i requires 0 <= i < f - k => BackoffStep * (k + i + 1)),
      if f < MaxAttempts then f + 1 else MaxAttempts)
  {
    if k < f {
      RetryFromSettled(attempt, k + 1, f);
      var rest := seq(f - k - 1, i requires 0 <= i < f - k - 1 => BackoffStep * (k + 1 + i + 1));
      assert [BackoffStep * (k + 1)] + rest == seq(f - k, i requires 0 <= i < f - k => BackoffStep * (k + i + 1));
    }
  }

  /**
   * The retry policy in closed form. Short or missing content gives "Summary
   * not available." with no call. Otherwise, when attempt `f` is the first
   * one not rate limited (f = 3 when all three were): the model is called
   * f + 1 times (at most 3), the waits are 15, 30, ... for each rate-limited
   * attempt, and the text is the first success, the "could not be
   * generated" message for another error, or the rate-limit message.
   */
  lemma SummarizeSettled(content: Option<string>, attempt: nat -> Outcome, f: nat)
    requires f <= MaxAttempts
    requires forall j :: 0 <= j < f ==> attempt(j) == RateLimited
    requires f < MaxAttempts ==> attempt(f) != RateLimited
    ensures var run := Summarize(content, attempt);
      if content.None? || |content.value| < MinContentLength then
        run == SummaryRun(NotAvailable, [], 0)
      else
        run == SummaryRun(SettledText(attempt, f), Backoffs(f), if f < MaxAttempts then f + 1 else MaxAttempts)
  {
    RetryFromSettled(attempt, 0, f);
  }

  /** Three rate-limit errors: 3 calls, waits of 15, 30 and 45 seconds (90 in all, the last one after the final failure), then the rate-limit message. */
  lemma SummarizeExhausted(content: string, attempt: nat -> Outcome)
    requires |content| >= MinContentLength
    requires attempt(0) == RateLimited && attempt(1) == RateLimited && attempt(2) == RateLimited
    ensures Summarize(Some(content), attempt) == SummaryRun(RateLimitFailure, [15, 30, 45], 3)
  {
    SummarizeSettled(Some(content), attempt, 3);
    assert Backoffs(3) == [15, 30, 45];
  }

  /** A success after three rate-limit errors is never reached: there is no fourth call. */
  lemma SummarizeNoFourthCall(content: string, attempt: nat -> Outcome, t: string)
    requires |content| >= MinContentLength
    requires attempt(0) == RateLimited && attempt(1) == RateLimited && attempt(2) == RateLimited
    requires attempt(3) == Success(t) && t != RateLimitFailure
    ensures Summarize(Some(content), attempt).text != t
  {
    SummarizeExhausted(content, attempt);
  }

  /**
   * `get_summary_from_gemini(content)`: `attempt(k)` is the outcome of the
   * k-th model call; the sleeps are returned as `waits`.
   */
  method GetSummaryFromGemini(content: Option<string>, attempt: nat -> Outcome)
    returns (summary: string, waits: seq<nat>, calls: nat)
    ensures calls <= MaxAttempts
    ensures SummaryRun(summary, waits, calls) == Summarize(content, attempt)
  {
    if content.None? || |content.value| < MinContentLength {
      return NotAvailable, [], 0;
    }
    waits, calls := [], 0;
    var k := 0;
    while k < MaxAttempts
      invariant 0 <= k <= MaxAttempts && calls == k
      invariant var rest := RetryFrom(attempt, k);
        RetryFrom(attempt, 0) == SummaryRun(rest.text, waits + rest.waits, rest.calls)
    {
      var outcome := attempt(k);
      calls := calls + 1;
      match outcome {
        case Success(t) =>
          assert RetryFrom(attempt, k) == SummaryRun(t, [], calls);
          return t, waits, calls;
        case OtherError =>
          assert RetryFrom(attempt, k) == SummaryRun(CouldNotGenerate, [], calls);
          return CouldNotGenerate, waits, calls;
        case RateLimited =>
          assert waits + RetryFrom(attempt, k).waits == (waits + [BackoffStep * (k + 1)]) + RetryFrom(attempt, k + 1).waits;
          waits := waits + [BackoffStep * (k + 1)];
      }
      k := k + 1;
    }
    summary := RateLimitFailure;
  }

  // ---------------------------------------------------------------------
  // create_categories
  // ---------------------------------------------------------------------

  /** One seeded category: the lookup key, the stored name and a description (which the seeding does not store). */
  datatype CategorySeed = CategorySeed(key: string, name: string, description: string)

  const CategorySeeds: seq<CategorySeed> := [
    CategorySeed("technology", "Technology", "Latest technology news and innovations"),
    CategorySeed("world", "World", "Global news and current events"),
    CategorySeed("business", "Business", "Business and economic news"),
    CategorySeed("science", "Science", "Science and research news"),
    CategorySeed("health", "Health", "Health and medical news"),
    CategorySeed("sports", "Sports", "Sports news and updates"),
    CategorySeed("entertainment", "Entertainment", "Movie, music, and celebrity news"),
    CategorySeed("politics", "Politics", "Government news, policy, and elections"),
    CategorySeed("lifestyle", "Lifestyle", "Fashion, food, travel, and wellness news"),
    CategorySeed("environment", "Environment", "News on climate change and conservation"),
    CategorySeed("education", "Education", "News about schools and educational trends"),
    CategorySeed("gaming", "Gaming", "Video game news, reviews, and esports")
  ]

  /** The names of `seeds`. */
  function SeedNames(seeds: seq<CategorySeed>): set<string> {
    set k | 0 <= k < |seeds| :: seeds[k].name
  }

  /** The keys of `seeds`. */
  function SeedKeys(seeds: seq<CategorySeed>): set<string> {
    set k | 0 <= k < |seeds| :: seeds[k].key
  }

  /** No two seeds share a name or a key. */
  ghost predicate DistinctSeeds(seeds: seq<CategorySeed>) {
    forall a, b :: 0 <= a < b < |seeds| ==> seeds[a].name != seeds[b].name && seeds[a].key != seeds[b].key
  }

  lemma CategorySeedsDistinct()
    ensures DistinctSeeds(CategorySeeds)
  {
    SeedNamesDistinct();
    SeedKeysDistinct();
  }

  lemma SeedNamesDistinct()
    ensures forall a, b :: 0 <= a < b < |CategorySeeds| ==> CategorySeeds[a].name != CategorySeeds[b].name
  {
  }

  lemma SeedKeysDistinct()
    ensures forall a, b :: 0 <= a < b < |CategorySeeds| ==> CategorySeeds[a].key != CategorySeeds[b].key
  {
  }


  /**
   * Seeding `seeds` in order, starting from category table `t` and key map
   * `m`: the table afterwards and the key-to-id map, or None when a
   * get_or_create raised (the table then keeps the rows created so far).
   */
  function SeedFrom(seeds: seq<CategorySeed>, t: seq<string>, m: map<string, CategoryId>): (r: (seq<string>, Option<map<string, CategoryId>>))
    ensures |t| <= |r.0| <= |t| + |seeds|
  {
    if seeds == [] then (t, Some(m))
    else match CategoryGetOrCreate(t, seeds[0].name)
      case None => (t, None)
      case Some((t', id)) => SeedFrom(seeds[1..], t', m[seeds[0].key := id])
  }

  /** `create_categories()`: get_or_create of every seed name in order; None when one raised. */
  method CreateCategories(db: Database) returns (cats: Option<map<string, CategoryId>>)
    modifies db`categories
    ensures (db.categories, cats) == SeedFrom(CategorySeeds, old(db.categories), map[])
  {
    var m: map<string, CategoryId> := map[];
    var i := 0;
    while i < |CategorySeeds|
      invariant 0 <= i <= |CategorySeeds|
      invariant SeedFrom(CategorySeeds[i..], db.categories, m) == SeedFrom(CategorySeeds, old(db.categories), map[])
    {
      var seed := CategorySeeds[i];
      SeedFromUnfold(CategorySeeds, i, db.categories, m);
      var id := db.GetOrCreateCategory(seed.name);
      if id.None? {
        return None;
      }
      m := m[seed.key := id.value];
      i := i + 1;
    }
    cats := Some(m);
  }

  /** One step of seeding from seed `i` on. */
  lemma SeedFromUnfold(seeds: seq<CategorySeed>, i: nat, t: seq<string>, m: map<string, CategoryId>)
    requires i < |seeds|
    ensures SeedFrom(seeds[i..], t, m) ==
      match CategoryGetOrCreate(t, seeds[i].name)
      case None => (t, None)
      case Some(r) => SeedFrom(seeds[i + 1..], r.0, m[seeds[i].key := r.1])
  {
    assert seeds[i..][1..] == seeds[i + 1..];
  }

  /** Seeding only appends to the table, and only rows named after a seed. */
  lemma SeedFromGrows(seeds: seq<CategorySeed>, t: seq<string>, m: map<string, CategoryId>)
    ensures var t2 := SeedFrom(seeds, t, m).0;
      && |t| <= |t2| && t2[..|t|] == t
      && (forall x :: x !in SeedNames(seeds) ==> multiset(t2)[x] == multiset(t)[x])
  {
    SeedFromAppends(seeds, t, m);
    SeedFromOtherNames(seeds, t, m);
  }

  lemma {:induction false} SeedFromAppends(seeds: seq<CategorySeed>, t: seq<string>, m: map<string, CategoryId>)
    ensures |t| <= |SeedFrom(seeds, t, m).0| && SeedFrom(seeds, t, m).0[..|t|] == t
  {
    if seeds != [] {
      CategoryGetOrCreateFacts(t, seeds[0].name);
      var r := CategoryGetOrCreate(t, seeds[0].name);
      if r.Some? {
        var t' := r.value.0;
        SeedFromAppends(seeds[1..], t', m[seeds[0].key := r.value.1]);
        var t2 := SeedFrom(seeds, t, m).0;
        assert t2[..|t'|] == t';
        assert t2[..|t|] == t'[..|t|];
      }
    }
  }

  lemma {:induction false} SeedFromOtherNames(seeds: seq<CategorySeed>, t: seq<string>, m: map<string, CategoryId>)
    ensures forall x :: x !in SeedNames(seeds) ==> multiset(SeedFrom(seeds, t, m).0)[x] == multiset(t)[x]
  {
    if seeds != [] {
      CategoryGetOrCreateFacts(t, seeds[0].name);
      var r := CategoryGetOrCreate(t, seeds[0].name);
      if r.Some? {
        SeedFromOtherNames(seeds[1..], r.value.0, m[seeds[0].key := r.value.1]);
        forall x | x !in SeedNames(seeds)
          ensures x !in SeedNames(seeds[1..]) && x != seeds[0].name
        {
          assert seeds[0].name in SeedNames(seeds);
        }
      }
    }
  }

  /** Splitting off the first seed. */
  lemma SeedsSplit(seeds: seq<CategorySeed>)
    requires seeds != [] && DistinctSeeds(seeds)
    ensures DistinctSeeds(seeds[1..])
    ensures forall k :: 1 <= k < |seeds| ==> seeds[1..][k - 1] == seeds[k]
    ensures SeedNames(seeds) == {seeds[0].name} + SeedNames(seeds[1..]) && seeds[0].name !in SeedNames(seeds[1..])
    ensures SeedKeys(seeds) == {seeds[0].key} + SeedKeys(seeds[1..]) && seeds[0].key !in SeedKeys(seeds[1..])
  {
    assert forall k :: 0 <= k < |seeds[1..]| ==> seeds[1..][k] == seeds[k + 1];
  }

  /** Seeding fails exactly when the table already holds some seed name in two or more rows. */
  lemma SeedFromFailsIff(seeds: seq<CategorySeed>, t: seq<string>, m: map<string, CategoryId>)
    requires DistinctSeeds(seeds)
    ensures SeedFrom(seeds, t, m).1.None? <==> exists k :: 0 <= k < |seeds| && multiset(t)[seeds[k].name] >= 2
  {
    if SeedFrom(seeds, t, m).1.None? {
      var k := SeedFromFailure(seeds, t, m);
    }
    if exists k :: 0 <= k < |seeds| && multiset(t)[seeds[k].name] >= 2 {
      var k :| 0 <= k < |seeds| && multiset(t)[seeds[k].name] >= 2;
      SeedFromFailsAt(seeds, t, m, k);
    }
  }

  /** A seed name held by two or more rows makes seeding fail. */
  lemma {:induction false} SeedFromFailsAt(seeds: seq<CategorySeed>, t: seq<string>, m: map<string, CategoryId>, k: nat)
    requires DistinctSeeds(seeds) && k < |seeds| && multiset(t)[seeds[k].name] >= 2
    ensures SeedFrom(seeds, t, m).1.None?
  {
    CategoryGetOrCreateFacts(t, seeds[0].name);
    var r := CategoryGetOrCreate(t, seeds[0].name);
    if r.Some? {
      assert k != 0;
      SeedsSplit(seeds);
      assert seeds[1..][k - 1] == seeds[k];
      SeedFromFailsAt(seeds[1..], r.value.0, m[seeds[0].key := r.value.1], k - 1);
    }
  }

  /** When seeding fails, some seed name was held by two or more rows. */
  lemma {:induction false} SeedFromFailure(seeds: seq<CategorySeed>, t: seq<string>, m: map<string, CategoryId>)
    returns (k: nat)
    requires DistinctSeeds(seeds) && SeedFrom(seeds, t, m).1.None?
    ensures k < |seeds| && multiset(t)[seeds[k].name] >= 2
  {
    CategoryGetOrCreateFacts(t, seeds[0].name);
    var r := CategoryGetOrCreate(t, seeds[0].name);
    if r.None? {
      k := 0;
    } else {
      SeedsSplit(seeds);
      var k' := SeedFromFailure(seeds[1..], r.value.0, m[seeds[0].key := r.value.1]);
      k := k' + 1;
      assert seeds[1..][k'] == seeds[k];
    }
  }

  /** A table that holds every seed name exactly once is left as it is. */
  lemma {:induction false} SeedFromStable(seeds: seq<CategorySeed>, t: seq<string>, m: map<string, CategoryId>)
    requires forall k :: 0 <= k < |seeds| ==> multiset(t)[seeds[k].name] == 1
    ensures SeedFrom(seeds, t, m).0 == t && SeedFrom(seeds, t, m).1.Some?
  {
    if seeds != [] {
      CategoryGetOrCreateFacts(t, seeds[0].name);
      var id := CategoryGetOrCreate(t, seeds[0].name).value.1;
      assert forall k :: 0 <= k < |seeds[1..]| ==> seeds[1..][k] == seeds[k + 1];
      SeedFromStable(seeds[1..], t, m[seeds[0].key := id]);
    }
  }

  /** After a successful seeding the map holds the seed keys and keeps the other keys of `m`. */
  lemma {:induction false} SeedFromKeys(seeds: seq<CategorySeed>, t: seq<string>, m: map<string, CategoryId>)
    requires DistinctSeeds(seeds)
    ensures var r := SeedFrom(seeds, t, m).1;
      r.Some? ==>
        && r.value.Keys == m.Keys + SeedKeys(seeds)
        && (forall key :: key in m && key !in SeedKeys(seeds) ==> r.value[key] == m[key])
  {
    if seeds != [] {
      match CategoryGetOrCreate(t, seeds[0].name)
      case None =>
      case Some((t', id)) =>
        SeedsSplit(seeds);
        SeedFromKeys(seeds[1..], t', m[seeds[0].key := id]);
    }
  }

  /** After a successful seeding every seed name is held by exactly one row. */
  lemma {:induction false} SeedFromCounts(seeds: seq<CategorySeed>, t: seq<string>, m: map<string, CategoryId>)
    requires DistinctSeeds(seeds)
    ensures var (t2, r) := SeedFrom(seeds, t, m);
      r.Some? ==> forall k :: 0 <= k < |seeds| ==> multiset(t2)[seeds[k].name] == 1
  {
    if seeds != [] {
      CategoryGetOrCreateFacts(t, seeds[0].name);
      match CategoryGetOrCreate(t, seeds[0].name)
      case None =>
      case Some((t', id)) =>
        var m' := m[seeds[0].key := id];
        SeedsSplit(seeds);
        SeedFromCounts(seeds[1..], t', m');
        SeedFromGrows(seeds[1..], t', m');
    }
  }

  /** After a successful seeding each seed key maps to the row holding the seed name. */
  lemma {:induction false} SeedFromIds(seeds: seq<CategorySeed>, t: seq<string>, m: map<string, CategoryId>)
    requires DistinctSeeds(seeds)
    ensures var (t2, r) := SeedFrom(seeds, t, m);
      r.Some? ==> forall k :: 0 <= k < |seeds| ==>
        seeds[k].name in t2 && seeds[k].key in r.value && r.value[seeds[k].key] == IndexOf(t2, seeds[k].name)
  {
    if seeds != [] {
      match CategoryGetOrCreate(t, seeds[0].name)
      case None =>
      case Some((t', id)) =>
        var m' := m[seeds[0].key := id];
        var rest := seeds[1..];
        SeedsSplit(seeds);
        SeedFromIds(rest, t', m');
        FirstSeedId(seeds, t, m, t', id);
        var (t2, r) := SeedFrom(rest, t', m');
        if r.Some? {
          forall k | 1 <= k < |seeds|
            ensures seeds[k].name in t2 && seeds[k].key in r.value && r.value[seeds[k].key] == IndexOf(t2, seeds[k].name)
          {
            assert rest[k - 1] == seeds[k];
          }
        }
    }
  }

  /** The first seed's key maps to the row holding its name. */
  lemma FirstSeedId(seeds: seq<CategorySeed>, t: seq<string>, m: map<string, CategoryId>, t': seq<string>, id: CategoryId)
    requires seeds != [] && DistinctSeeds(seeds)
    requires CategoryGetOrCreate(t, seeds[0].name) == Some((t', id))
    ensures var (t2, r) := SeedFrom(seeds[1..], t', m[seeds[0].key := id]);
      r.Some? ==> seeds[0].name in t2 && seeds[0].key in r.value && r.value[seeds[0].key] == IndexOf(t2, seeds[0].name)
  {
    var m' := m[seeds[0].key := id];
    CategoryGetOrCreateFacts(t, seeds[0].name);
    SeedsSplit(seeds);
    SeedFromGrows(seeds[1..], t', m');
    SeedFromKeys(seeds[1..], t', m');
    var t2 := SeedFrom(seeds[1..], t', m').0;
    assert t2 == t' + t2[|t'|..];
    IndexOfExtended(t', t2[|t'|..], seeds[0].name);
  }

  /** Seeding is idempotent: seeding the table a successful seeding left changes nothing and yields the same key map. */
  lemma SeedFromIdempotent(seeds: seq<CategorySeed>, t: seq<string>)
    requires DistinctSeeds(seeds)
    ensures var (t2, r) := SeedFrom(seeds, t, map[]);
      r.Some? ==> SeedFrom(seeds, t2, map[]) == (t2, r)
  {
    var (t2, r) := SeedFrom(seeds, t, map[]);
    if r.Some? {
      SeedFromCounts(seeds, t, map[]);
      SeedFromIds(seeds, t, map[]);
      SeedFromKeys(seeds, t, map[]);
      SeedFromStable(seeds, t2, map[]);
      SeedFromIds(seeds, t2, map[]);
      SeedFromKeys(seeds, t2, map[]);
      var r2 := SeedFrom(seeds, t2, map[]).1;
      forall key | key in r.value
        ensures key in r2.value && r2.value[key] == r.value[key]
      {
        var k :| 0 <= k < |seeds| && seeds[k].key == key;
      }
      assert r2.value == r.value;
    }
  }

  /** Running `create_categories` a second time after a successful run changes nothing. */
  lemma CreateCategoriesIdempotent(t: seq<string>)
    ensures var (t2, r) := SeedFrom(CategorySeeds, t, map[]);
      r.Some? ==> SeedFrom(CategorySeeds, t2, map[]) == (t2, r)
  {
    CategorySeedsDistinct();
    SeedFromIdempotent(CategorySeeds, t);
  }

  // ---------------------------------------------------------------------
  // fetch_articles
  // ---------------------------------------------------------------------

  /** One (category name, feed URL) pair of RSS_FEEDS. */
  datatype Feed = Feed(name: string, url: string)

  const RssFeeds: seq<Feed> := [
    Feed("Technology", "https://feeds.bbci.co.uk/news/technology/rss.xml"),
    Feed("World", "https://feeds.bbci.co.uk/news/world/rss.xml"),
    Feed("Business", "https://feeds.bbci.co.uk/news/business/rss.xml"),
    Feed("Science", "https://feeds.bbci.co.uk/news/science_and_environment/rss.xml"),
    Feed("Health", "https://feeds.bbci.co.uk/news/health/rss.xml"),
    Feed("Sports", "http://feeds.bbci.co.uk/sport/rss.xml"),
    Feed("Entertainment", "https://feeds.bbci.co.uk/news/entertainment/rss.xml"),
    Feed("Politics", "https://feeds.bbci.co.uk/news/politics/rss.xml"),
    Feed("Lifestyle", "https://feeds.bbci.co.uk/news/lifestyle/rss.xml"),
    Feed("Environment", "https://feeds.bbci.co.uk/news/environment/rss.xml"),
    Feed("Education", "https://feeds.bbci.co.uk/news/education/rss.xml"),
    Feed("Gaming", "https://feeds.bbci.co.uk/news/gaming/rss.xml")
  ]

  /**
   * Feed `f` carries the name of seed `f`, whose key is that name in lower
   * case, so after a successful seeding no feed is skipped for a missing
   * category.
   */
  lemma FeedsHaveSeededCategories()
    ensures |RssFeeds| == |CategorySeeds|
    ensures forall f :: 0 <= f < |RssFeeds| ==>
      RssFeeds[f].name == CategorySeeds[f].name && Lower(RssFeeds[f].name) == CategorySeeds[f].key
  {
    SeedKeysAreLowerNames();
  }

  /** Each seed's key is its name in lower case. */
  lemma SeedKeysAreLowerNames()
    ensures forall k :: 0 <= k < |CategorySeeds| ==> Lower(CategorySeeds[k].name) == CategorySeeds[k].key
  {
    SeedKeysLowerFirst();
    SeedKeysLowerMiddle();
    SeedKeysLowerLast();
  }

  lemma SeedKeysLowerFirst()
    ensures forall k :: 0 <= k < 4 ==> Lower(CategorySeeds[k].name) == CategorySeeds[k].key
  {
    forall k | 0 <= k < 4
      ensures Lower(CategorySeeds[k].name) == CategorySeeds[k].key
    {
      LowerCapitalized(CategorySeeds[k].name, CategorySeeds[k].key);
    }
  }

  lemma SeedKeysLowerMiddle()
    ensures forall k :: 4 <= k < 8 ==> Lower(CategorySeeds[k].name) == CategorySeeds[k].key
  {
    forall k | 4 <= k < 8
      ensures Lower(CategorySeeds[k].name) == CategorySeeds[k].key
    {
      LowerCapitalized(CategorySeeds[k].name, CategorySeeds[k].key);
    }
  }

  lemma SeedKeysLowerLast()
    ensures forall k :: 8 <= k < 12 ==> Lower(CategorySeeds[k].name) == CategorySeeds[k].key
  {
    forall k | 8 <= k < 12
      ensures Lower(CategorySeeds[k].name) == CategorySeeds[k].key
    {
      LowerCapitalized(CategorySeeds[k].name, CategorySeeds[k].key);
    }
  }

  /** Only the first 7 entries of a feed are looked at. */
  const MaxEntriesPerFeed: nat := 7
  /** Stored titles are cut to 200 characters. */
  const MaxTitleLength: nat := 200

  /** One feed entry; an attribute the entry lacks is None. */
  datatype Entry = Entry(link: Option<string>, title: Option<string>, author: Option<string>, published: Option<int>)

  /**
   * The outside world of `fetch_articles`, as functions of the URL concerned:
   * the parsed feed (None when parsing raises), the text the article
   * extractor returns ("" on failure), the outcome of each summary call,
   * whether speech synthesis succeeds, whether the save after attaching the
   * audio succeeds, the HTML-to-text cleaner, the current time and MEDIA_URL.
   */
  datatype Env = Env(
    feed: string -> Option<seq<Entry>>,
    extract: string -> string,
    model: string -> nat -> Outcome,
    ttsOk: string -> bool,
    saveOk: string -> bool,
    cleanHtml: string -> string,
    now: int,
    mediaUrl: string)

  /** Entry `j` among the entries looked at in `feed`, if there is one: the feed parses, has more than `j` entries, and `j` is below 7. */
  function EntryAt(env: Env, feed: Feed, j: nat): Option<Entry> {
    if j < MaxEntriesPerFeed then
      match env.feed(feed.url)
      case Some(es) => if j < |es| then Some(es[j]) else None
      case None => None
    else None
  }

  /** Every entry of `feed` before entry `j` has a link, so none of them ended the feed. */
  ghost predicate Reached(env: Env, feed: Feed, j: nat) {
    forall i :: 0 <= i < j && EntryAt(env, feed, i).Some? ==> EntryAt(env, feed, i).value.link.Some?
  }

  /** An entry the guard lets through once its link is new: it has a link, a title and at least 200 characters of extracted text. */
  predicate Worthy(env: Env, entry: Entry) {
    entry.link.Some? && entry.title.Some? && |env.extract(entry.link.value)| >= MinContentLength
  }

  /** The summary stored for the article at `url`: the retry policy run on the extracted text. */
  function SummaryFor(env: Env, url: string): string {
    Summarize(Some(env.extract(url)), env.model(url)).text
  }

  /** The audio generated for the article at `url`, stored under `id`. */
  function AudioFor(env: Env, url: string, id: ArticleId): Option<string> {
    GenerateAudioSummary(Some(SummaryFor(env, url)), id, env.ttsOk(url), env.mediaUrl)
  }

  /** The article at `url` is returned unless it got audio and the save that stores the audio name failed. */
  predicate Returned(env: Env, url: string, id: ArticleId) {
    AudioFor(env, url, id).None? || env.saveOk(url)
  }

  /** The row `Article.objects.create` writes for entry `entry` of `feed` under id `id`. */
  function CreatedRow(env: Env, feed: Feed, entry: Entry, category: CategoryId, id: ArticleId): Article
    requires entry.link.Some? && entry.title.Some?
  {
    var url := entry.link.value;
    Saved(Article(id, Take(env.cleanHtml(entry.title.value), MaxTitleLength), entry.author.GetOr("Unknown"),
      env.extract(url), url, feed.name, entry.published.GetOr(env.now), Some(SummaryFor(env, url)),
      {category}, true, "", 0))
  }

  /** The row as it stays stored once the audio step is done: with the audio name when audio was made and saved. */
  function StoredRow(env: Env, feed: Feed, entry: Entry, category: CategoryId, id: ArticleId): Article
    requires entry.link.Some? && entry.title.Some?
  {
    var row := CreatedRow(env, feed, entry, category, id);
    var url := entry.link.value;
    if AudioFor(env, url, id).Some? && env.saveOk(url) then Saved(row.(audioFile := AudioName(id))) else row
  }

  /** The state of a run: the article rows, the next id to hand out, and the ids returned so far. */
  datatype RunState = RunState(articles: map<ArticleId, Article>, next: ArticleId, created: seq<ArticleId>)

  /**
   * One entry of `feed`: the new state, and whether the feed ends here.
   * An entry without a link ends the feed; an entry whose link is stored
   * or that is not Worthy is skipped; otherwise it is stored as Stored says.
   */
  function EntryStep(env: Env, st: RunState, feed: Feed, entry: Entry, category: CategoryId): (RunState, bool) {
    if entry.link.None? then (st, true)
    else if UrlIn(st.articles, entry.link.value) || !Worthy(env, entry) then (st, false)
    else (Stored(env, st, feed, entry, category), false)
  }

  /** The state once `entry` is stored under the next id, its id returned unless the audio save failed. */
  function Stored(env: Env, st: RunState, feed: Feed, entry: Entry, category: CategoryId): RunState
    requires entry.link.Some? && entry.title.Some?
  {
    RunState(st.articles[st.next := StoredRow(env, feed, entry, category, st.next)], st.next + 1,
             if Returned(env, entry.link.value, st.next) then st.created + [st.next] else st.created)
  }

  /** An entry with a link that is stored already or not Worthy leaves the state as it is. */
  lemma EntryStepSkips(env: Env, st: RunState, feed: Feed, entry: Entry, category: CategoryId)
    requires entry.link.Some? && (UrlIn(st.articles, entry.link.value) || !Worthy(env, entry))
    ensures EntryStep(env, st, feed, entry, category) == (st, false)
  {
  }

  /** A Worthy entry with a new link is stored under the next id. */
  lemma EntryStepStores(env: Env, st: RunState, feed: Feed, entry: Entry, category: CategoryId)
    requires Worthy(env, entry) && !UrlIn(st.articles, entry.link.value)
    ensures EntryStep(env, st, feed, entry, category) == (Stored(env, st, feed, entry, category), false)
  {
  }

  /** The entries of `feed` from entry `j` on, in order, up to the first without a link; a feed that fails to parse has none. */
  function EntriesFrom(env: Env, st: RunState, feed: Feed, j: nat, category: CategoryId): RunState
    decreases MaxEntriesPerFeed - j
  {
    if j >= MaxEntriesPerFeed then st
    else match EntryAt(env, feed, j)
      case None => st
      case Some(e) =>
        var (st', stop) := EntryStep(env, st, feed, e, category);
        if stop then st' else EntriesFrom(env, st', feed, j + 1, category)
  }

  /** The feeds `feeds[f..]`, in order, once the categories are seeded; a feed whose category key is missing is skipped. */
  function FeedsFrom(env: Env, st: RunState, feeds: seq<Feed>, cats: map<string, CategoryId>, f: nat): RunState
    requires f <= |feeds|
    decreases |feeds| - f
  {
    if f == |feeds| then st
    else
      var key := Lower(feeds[f].name);
      FeedsFrom(env, if key in cats then EntriesFrom(env, st, feeds[f], 0, cats[key]) else st, feeds, cats, f + 1)
  }

  // ---------------------------------------------------------------------
  // What a run creates: soundness
  // ---------------------------------------------------------------------

  /** Article `a` was built from entry `j` of `feed`. */
  ghost predicate IngestedFrom(env: Env, a: Article, feed: Feed, j: nat) {
    && EntryAt(env, feed, j).Some?
    && var e := EntryAt(env, feed, j).value;
    && e.link == Some(a.url)
    && e.title.Some?
    && a.title == Take(env.cleanHtml(e.title.value), MaxTitleLength)
    && a.author == e.author.GetOr("Unknown")
    && a.publishedAt == e.published.GetOr(env.now)
    && a.source == feed.name
  }

  /**
   * What holds of every article a run over `feeds` creates, given the
   * articles stored before the run: its URL was not stored before, and it
   * is built from an entry as BuiltFromEntry says.
   */
  ghost predicate NewArticleOk(env: Env, feeds: seq<Feed>, before: map<ArticleId, Article>, a: Article, returned: bool) {
    && (forall id :: id in before ==> before[id].url != a.url)
    && BuiltFromEntry(env, feeds, a, returned)
  }

  /**
   * Article `a` comes from one of the first 7 entries of one of `feeds`,
   * reached before any entry without a link; its content is the extracted
   * text and at least 200 characters long, its summary is what the retry
   * policy gives, it is approved, and it is returned unless attaching its
   * audio failed, in which case it stays stored without audio.
   */
  ghost predicate BuiltFromEntry(env: Env, feeds: seq<Feed>, a: Article, returned: bool) {
    && (exists f, j :: 0 <= f < |feeds| && 0 <= j < MaxEntriesPerFeed && IngestedFrom(env, a, feeds[f], j) && Reached(env, feeds[f], j))
    && |a.content| >= MinContentLength
    && a.content == env.extract(a.url)
    && a.summary == Some(Summarize(Some(a.content), env.model(a.url)).text)
    && a.approved
    && var audio := GenerateAudioSummary(a.summary, a.id, env.ttsOk(a.url), env.mediaUrl);
    && (returned ==> a.audioFile == (if audio.Some? then AudioName(a.id) else ""))
    && (!returned ==> audio.Some? && !env.saveOk(a.url) && a.audioFile == "")
  }

  /**
   * The state of a run so far: stored articles untouched, `created` lists
   * new articles in increasing id (processing) order, and every new article
   * satisfies NewArticleOk.
   */
  ghost predicate RunOk(env: Env, feeds: seq<Feed>, before: map<ArticleId, Article>, after: map<ArticleId, Article>, created: seq<ArticleId>) {
    && RowsKept(before, after)
    && CreatedListed(before, after, created)
    && NewRowsOk(env, feeds, before, after, created)
  }

  /** The rows stored before the run are still there, unchanged. */
  ghost predicate RowsKept(before: map<ArticleId, Article>, after: map<ArticleId, Article>) {
    forall id :: id in before ==> id in after && after[id] == before[id]
  }

  /** `created` lists new rows only, in increasing id order. */
  ghost predicate CreatedListed(before: map<ArticleId, Article>, after: map<ArticleId, Article>, created: seq<ArticleId>) {
    && (forall i :: 0 <= i < |created| ==> created[i] in after && created[i] !in before)
    && (forall i, j :: 0 <= i < j < |created| ==> created[i] < created[j])
  }

  /** Every new row is a new article in the sense of NewArticleOk. */
  ghost predicate NewRowsOk(env: Env, feeds: seq<Feed>, before: map<ArticleId, Article>, after: map<ArticleId, Article>, created: seq<ArticleId>) {
    forall id {:trigger NewRow(env, feeds, before, after, created, id)} ::
      id in after && id !in before ==> NewRow(env, feeds, before, after, created, id)
  }

  /** Row `id` of `after` is a new article in the sense of NewArticleOk. */
  ghost predicate NewRow(env: Env, feeds: seq<Feed>, before: map<ArticleId, Article>, after: map<ArticleId, Article>, created: seq<ArticleId>, id: ArticleId) {
    id in after && NewArticleOk(env, feeds, before, after[id], id in created)
  }

  /** A run state in a store that keeps its invariant, against the rows stored before the run. */
  ghost predicate StateOk(env: Env, feeds: seq<Feed>, before: map<ArticleId, Article>, st: RunState) {
    ArticlesOk(st.articles, st.next) && RunOk(env, feeds, before, st.articles, st.created)
  }

  /** A run that has stored nothing yet. */
  lemma RunOkStart(env: Env, feeds: seq<Feed>, before: map<ArticleId, Article>, next: ArticleId)
    requires ArticlesOk(before, next)
    ensures StateOk(env, feeds, before, RunState(before, next, []))
  {
  }

  lemma UpdateTwice<K, V>(m: map<K, V>, k: K, a: V, b: V)
    ensures m[k := a][k := b] == m[k := b]
  {
  }

  /** Storing one more new article `a` under a fresh id keeps the run state. */
  lemma RunOkExtend(env: Env, feeds: seq<Feed>, before: map<ArticleId, Article>, mid: map<ArticleId, Article>, created: seq<ArticleId>,
                    id: ArticleId, a: Article, returned: bool, created': seq<ArticleId>)
    requires RunOk(env, feeds, before, mid, created)
    requires id !in mid && forall i :: 0 <= i < |created| ==> created[i] < id
    requires NewArticleOk(env, feeds, before, a, returned)
    requires created' == if returned then created + [id] else created
    ensures RunOk(env, feeds, before, mid[id := a], created')
  {
    assert RowsKept(before, mid[id := a]);
    assert CreatedListed(before, mid[id := a], created');
    NewRowsExtend(env, feeds, before, mid, created, id, a, returned, created');
  }

  lemma NewRowsExtend(env: Env, feeds: seq<Feed>, before: map<ArticleId, Article>, mid: map<ArticleId, Article>, created: seq<ArticleId>,
                      id: ArticleId, a: Article, returned: bool, created': seq<ArticleId>)
    requires NewRowsOk(env, feeds, before, mid, created)
    requires id !in mid && id !in created
    requires NewArticleOk(env, feeds, before, a, returned)
    requires created' == if returned then created + [id] else created
    ensures NewRowsOk(env, feeds, before, mid[id := a], created')
  {
    var after := mid[id := a];
    forall x | x in after && x !in before
      ensures NewRow(env, feeds, before, after, created', x)
    {
      if x != id {
        assert NewRow(env, feeds, before, mid, created, x);
        assert x in created' <==> x in created;
      }
    }
  }

  /** The stored row is the created row after the audio step, and Returned is that step's outcome. */
  lemma AttachedRow(env: Env, feed: Feed, entry: Entry, category: CategoryId, id: ArticleId)
    requires entry.link.Some? && entry.title.Some?
    ensures var a := CreatedRow(env, feed, entry, category, id);
      var audio := GenerateAudioSummary(Some(SummaryFor(env, a.url)), id, env.ttsOk(a.url), env.mediaUrl);
      && a.url == entry.link.value
      && Returned(env, a.url, id) == (audio.None? || env.saveOk(a.url))
      && StoredRow(env, feed, entry, category, id)
         == if audio.Some? && (audio.None? || env.saveOk(a.url)) then Saved(a.(audioFile := AudioName(id))) else a
  {
  }

  /** The state Stored describes, spelled out: the row under the next id, and the id listed when it is returned. */
  lemma StoredState(env: Env, st: RunState, feed: Feed, entry: Entry, category: CategoryId,
                    articles: map<ArticleId, Article>, returned: bool, created': seq<ArticleId>)
    requires entry.link.Some? && entry.title.Some?
    requires articles == st.articles[st.next := StoredRow(env, feed, entry, category, st.next)]
    requires returned == Returned(env, entry.link.value, st.next)
    requires created' == if returned then st.created + [st.next] else st.created
    ensures RunState(articles, st.next + 1, created') == Stored(env, st, feed, entry, category)
  {
  }

  /** The row stored for an entry carries the entry's fields and the feed's category, whichever entry position it was read at. */
  lemma StoredRowFields(env: Env, feed: Feed, entry: Entry, category: CategoryId, id: ArticleId)
    requires entry.link.Some? && entry.title.Some?
    ensures var a := StoredRow(env, feed, entry, category, id);
      && a.categories == {category}
      && forall j: nat :: EntryAt(env, feed, j) == Some(entry) ==> IngestedFrom(env, a, feed, j)
  {
    var row := CreatedRow(env, feed, entry, category, id);
    var a := StoredRow(env, feed, entry, category, id);
    assert a.(audioFile := row.audioFile, readingTime := row.readingTime) == row;
  }

  /**
   * The row stored for entry `j` of feed `feeds[f]` is built from that
   * entry: its fields come from the entry, it carries the feed's category,
   * and it is a new article as BuiltFromEntry says, returned as Returned
   * says.
   */
  lemma StoredRowBuilt(env: Env, feeds: seq<Feed>, f: nat, j: nat, entry: Entry, category: CategoryId, id: ArticleId)
    requires f < |feeds| && j < MaxEntriesPerFeed && EntryAt(env, feeds[f], j) == Some(entry)
    requires Reached(env, feeds[f], j) && Worthy(env, entry)
    ensures var a := StoredRow(env, feeds[f], entry, category, id);
      && a.id == id && a.url == entry.link.value && a.categories == {category}
      && a.readingTime == ReadingTime(a.content)
      && IngestedFrom(env, a, feeds[f], j)
      && BuiltFromEntry(env, feeds, a, Returned(env, entry.link.value, id))
  {
    var row := CreatedRow(env, feeds[f], entry, category, id);
    var a := StoredRow(env, feeds[f], entry, category, id);
    assert a.(audioFile := row.audioFile, readingTime := row.readingTime) == row;
    assert IngestedFrom(env, a, feeds[f], j);
  }

  /** Before an entry is stored: its link is not the URL of a row stored before the run, and every id listed so far is below the next id. */
  lemma IngestPrerequisites(env: Env, feeds: seq<Feed>, before: map<ArticleId, Article>, st: RunState, link: string)
    requires StateOk(env, feeds, before, st) && !UrlIn(st.articles, link)
    ensures forall x :: x in before ==> before[x].url != link
    ensures forall i :: 0 <= i < |st.created| ==> st.created[i] < st.next
  {
    assert RowsKept(before, st.articles);
    forall x | x in before
      ensures before[x].url != link
    {
      assert x in st.articles && st.articles[x] == before[x];
    }
    forall i | 0 <= i < |st.created|
      ensures st.created[i] < st.next
    {
      assert st.created[i] in st.articles;
    }
  }

  /** One entry keeps the run state, provided the entry was reached. */
  lemma EntryStepOk(env: Env, feeds: seq<Feed>, before: map<ArticleId, Article>, st: RunState, f: nat, j: nat, entry: Entry, category: CategoryId)
    requires f < |feeds| && j < MaxEntriesPerFeed && EntryAt(env, feeds[f], j) == Some(entry) && Reached(env, feeds[f], j)
    requires StateOk(env, feeds, before, st)
    ensures StateOk(env, feeds, before, EntryStep(env, st, feeds[f], entry, category).0)
  {
    if entry.link.Some? && !UrlIn(st.articles, entry.link.value) && Worthy(env, entry) {
      var id := st.next;
      var a := StoredRow(env, feeds[f], entry, category, id);
      var returned := Returned(env, entry.link.value, id);
      var created' := if returned then st.created + [id] else st.created;
      StoredRowBuilt(env, feeds, f, j, entry, category, id);
      IngestPrerequisites(env, feeds, before, st, entry.link.value);
      ArticlesOkExtend(st.articles, st.next, a);
      RunOkExtend(env, feeds, before, st.articles, st.created, id, a, returned, created');
      StoredState(env, st, feeds[f], entry, category, st.articles[id := a], returned, created');
      EntryStepStores(env, st, feeds[f], entry, category);
    }
  }

  /** The entries of a feed from a reached entry on keep the run state. */
  lemma {:induction false} EntriesFromOk(env: Env, feeds: seq<Feed>, before: map<ArticleId, Article>, st: RunState, f: nat, j: nat, category: CategoryId)
    requires f < |feeds| && Reached(env, feeds[f], j) && StateOk(env, feeds, before, st)
    decreases MaxEntriesPerFeed - j
    ensures StateOk(env, feeds, before, EntriesFrom(env, st, feeds[f], j, category))
  {
    if j < MaxEntriesPerFeed && EntryAt(env, feeds[f], j).Some? {
      var e := EntryAt(env, feeds[f], j).value;
      var (st', stop) := EntryStep(env, st, feeds[f], e, category);
      EntryStepOk(env, feeds, before, st, f, j, e, category);
      if stop {
        assert EntriesFrom(env, st, feeds[f], j, category) == st';
      } else {
        assert EntriesFrom(env, st, feeds[f], j, category) == EntriesFrom(env, st', feeds[f], j + 1, category);
        assert Reached(env, feeds[f], j + 1);
        EntriesFromOk(env, feeds, before, st', f, j + 1, category);
      }
    }
  }

  /** The feeds from `feeds[f]` on keep the run state. */
  lemma {:induction false} FeedsFromOk(env: Env, feeds: seq<Feed>, before: map<ArticleId, Article>, st: RunState, cats: map<string, CategoryId>, f: nat)
    requires f <= |feeds| && StateOk(env, feeds, before, st)
    decreases |feeds| - f
    ensures StateOk(env, feeds, before, FeedsFrom(env, st, feeds, cats, f))
  {
    if f < |feeds| {
      var key := Lower(feeds[f].name);
      var st' := if key in cats then EntriesFrom(env, st, feeds[f], 0, cats[key]) else st;
      if key in cats {
        EntriesFromOk(env, feeds, before, st, f, 0, cats[key]);
      }
      assert FeedsFrom(env, st, feeds, cats, f) == FeedsFrom(env, st', feeds, cats, f + 1);
      FeedsFromOk(env, feeds, before, st', cats, f + 1);
    }
  }

  /**
   * Soundness of a whole run: starting from a store that keeps its
   * invariant, the rows stored before are untouched, the returned ids are
   * new and in processing order, and every new row is a new article as
   * NewArticleOk says.
   */
  lemma FeedsRunOk(env: Env, feeds: seq<Feed>, articles: map<ArticleId, Article>, next: ArticleId, cats: map<string, CategoryId>)
    requires ArticlesOk(articles, next)
    ensures var r := FeedsFrom(env, RunState(articles, next, []), feeds, cats, 0);
      ArticlesOk(r.articles, r.next) && RunOk(env, feeds, articles, r.articles, r.created)
  {
    RunOkStart(env, feeds, articles, next);
    FeedsFromOk(env, feeds, articles, RunState(articles, next, []), cats, 0);
  }

  // ---------------------------------------------------------------------
  // What a run creates: completeness and failure isolation
  // ---------------------------------------------------------------------

  /** Every stored id is below the next one to hand out. */
  ghost predicate NextFresh(st: RunState) {
    forall id :: id in st.articles ==> id < st.next
  }

  /** One entry keeps every stored row and the freshness of the next id. */
  lemma EntryStepGrows(env: Env, st: RunState, feed: Feed, entry: Entry, category: CategoryId)
    requires NextFresh(st)
    ensures var st' := EntryStep(env, st, feed, entry, category).0;
      NextFresh(st') && RowsKept(st.articles, st'.articles)
  {
  }

  /** The entries of a feed keep every stored row. */
  lemma {:induction false} EntriesFromGrows(env: Env, st: RunState, feed: Feed, j: nat, category: CategoryId)
    requires NextFresh(st)
    decreases MaxEntriesPerFeed - j
    ensures var r := EntriesFrom(env, st, feed, j, category);
      NextFresh(r) && RowsKept(st.articles, r.articles)
  {
    if j < MaxEntriesPerFeed && EntryAt(env, feed, j).Some? {
      var e := EntryAt(env, feed, j).value;
      EntryStepGrows(env, st, feed, e, category);
      var step := EntryStep(env, st, feed, e, category);
      if step.1 {
        assert EntriesFrom(env, st, feed, j, category) == step.0;
      } else {
        assert EntriesFrom(env, st, feed, j, category) == EntriesFrom(env, step.0, feed, j + 1, category);
        EntriesFromGrows(env, step.0, feed, j + 1, category);
        RowsKeptTransitive(st.articles, step.0.articles, EntriesFrom(env, step.0, feed, j + 1, category).articles);
      }
    }
  }

  lemma RowsKeptTransitive(a: map<ArticleId, Article>, b: map<ArticleId, Article>, c: map<ArticleId, Article>)
    requires RowsKept(a, b) && RowsKept(b, c)
    ensures RowsKept(a, c)
  {
  }

  /** The feeds keep every stored row. */
  lemma {:induction false} FeedsFromGrows(env: Env, st: RunState, feeds: seq<Feed>, cats: map<string, CategoryId>, f: nat)
    requires f <= |feeds| && NextFresh(st)
    decreases |feeds| - f
    ensures var r := FeedsFrom(env, st, feeds, cats, f);
      NextFresh(r) && RowsKept(st.articles, r.articles)
  {
    if f < |feeds| {
      var key := Lower(feeds[f].name);
      var st' := if key in cats then EntriesFrom(env, st, feeds[f], 0, cats[key]) else st;
      if key in cats {
        EntriesFromGrows(env, st, feeds[f], 0, cats[key]);
      }
      assert FeedsFrom(env, st, feeds, cats, f) == FeedsFrom(env, st', feeds, cats, f + 1);
      FeedsFromGrows(env, st', feeds, cats, f + 1);
    }
  }

  /** A URL stored in a store is still stored in one that keeps its rows. */
  lemma UrlInKept(a: map<ArticleId, Article>, b: map<ArticleId, Article>, url: string)
    requires RowsKept(a, b) && UrlIn(a, url)
    ensures UrlIn(b, url)
  {
    var id :| id in a && a[id].url == url;
    assert id in b && b[id].url == url;
  }

  /** After the step of a Worthy entry, its link is stored, whether it was stored already or is stored now. */
  lemma EntryStepKeepsUrl(env: Env, st: RunState, feed: Feed, entry: Entry, category: CategoryId)
    requires NextFresh(st) && entry.link.Some? && Worthy(env, entry)
    ensures UrlIn(EntryStep(env, st, feed, entry, category).0.articles, entry.link.value)
  {
    if !UrlIn(st.articles, entry.link.value) {
      EntryStepStores(env, st, feed, entry, category);
      var st' := Stored(env, st, feed, entry, category);
      assert st'.articles[st.next].url == entry.link.value;
    }
  }

  /** Entries are looked at from the start of a parsed feed, so every entry before an existing one exists too. */
  lemma EntryAtEarlier(env: Env, feed: Feed, i: nat, k: nat)
    requires i <= k && EntryAt(env, feed, k).Some?
    ensures EntryAt(env, feed, i).Some? && k < MaxEntriesPerFeed
  {
  }

  /**
   * Within a feed: entry `k`, reached from entry `j` (no entry from `j` up
   * to `k` lacks a link), that is Worthy has its link stored after the
   * feed, whatever happened to the entries before it.
   */
  lemma {:induction false} EntriesFromStores(env: Env, st: RunState, feed: Feed, j: nat, k: nat, category: CategoryId)
    requires NextFresh(st) && j <= k
    requires EntryAt(env, feed, k).Some? && Worthy(env, EntryAt(env, feed, k).value)
    requires forall i :: j <= i < k && EntryAt(env, feed, i).Some? ==> EntryAt(env, feed, i).value.link.Some?
    decreases k - j
    ensures UrlIn(EntriesFrom(env, st, feed, j, category).articles, EntryAt(env, feed, k).value.link.value)
  {
    EntryAtEarlier(env, feed, j, k);
    var e := EntryAt(env, feed, j).value;
    var st' := EntryStep(env, st, feed, e, category).0;
    EntryStepGrows(env, st, feed, e, category);
    assert EntriesFrom(env, st, feed, j, category) == EntriesFrom(env, st', feed, j + 1, category);
    if j == k {
      EntryStepKeepsUrl(env, st, feed, e, category);
      EntriesFromGrows(env, st', feed, j + 1, category);
      UrlInKept(st'.articles, EntriesFrom(env, st', feed, j + 1, category).articles, e.link.value);
    } else {
      EntriesFromStores(env, st', feed, j + 1, k, category);
    }
  }

  /**
   * Across feeds: a Worthy entry `k` of `feeds[g]`, reached in its feed,
   * whose category key is present, has its link stored after the run,
   * whatever failed in other feeds or in other entries of its own feed.
   */
  lemma {:induction false} FeedsFromStores(env: Env, st: RunState, feeds: seq<Feed>, cats: map<string, CategoryId>, f: nat, g: nat, k: nat)
    requires f <= g < |feeds| && NextFresh(st) && Lower(feeds[g].name) in cats
    requires EntryAt(env, feeds[g], k).Some? && Worthy(env, EntryAt(env, feeds[g], k).value) && Reached(env, feeds[g], k)
    decreases g - f
    ensures UrlIn(FeedsFrom(env, st, feeds, cats, f).articles, EntryAt(env, feeds[g], k).value.link.value)
  {
    var key := Lower(feeds[f].name);
    var st' := if key in cats then EntriesFrom(env, st, feeds[f], 0, cats[key]) else st;
    if key in cats {
      EntriesFromGrows(env, st, feeds[f], 0, cats[key]);
    }
    assert FeedsFrom(env, st, feeds, cats, f) == FeedsFrom(env, st', feeds, cats, f + 1);
    if f == g {
      EntriesFromStores(env, st, feeds[f], 0, k, cats[key]);
      FeedsFromGrows(env, st', feeds, cats, f + 1);
      UrlInKept(st'.articles, FeedsFrom(env, st', feeds, cats, f + 1).articles, EntryAt(env, feeds[g], k).value.link.value);
    } else {
      FeedsFromStores(env, st', feeds, cats, f + 1, g, k);
    }
  }

  /**
   * Completeness of `fetch_articles`: once seeding succeeded, every entry
   * among the first 7 of any feed, reached before an entry without a link,
   * with a title and at least 200 characters of extracted text, has its
   * link stored after the run (stored by this run, or already stored).
   */
  lemma FetchArticlesComplete(env: Env, t: seq<string>, st: RunState, g: nat, k: nat)
    requires SeedFrom(CategorySeeds, t, map[]).1.Some? && NextFresh(st) && g < |RssFeeds|
    requires EntryAt(env, RssFeeds[g], k).Some? && Worthy(env, EntryAt(env, RssFeeds[g], k).value) && Reached(env, RssFeeds[g], k)
    ensures UrlIn(FeedsFrom(env, st, RssFeeds, SeedFrom(CategorySeeds, t, map[]).1.value, 0).articles,
                  EntryAt(env, RssFeeds[g], k).value.link.value)
  {
    var cats := SeedFrom(CategorySeeds, t, map[]).1.value;
    CategorySeedsDistinct();
    SeedFromKeys(CategorySeeds, t, map[]);
    FeedsHaveSeededCategories();
    assert CategorySeeds[g].key in SeedKeys(CategorySeeds);
    FeedsFromStores(env, st, RssFeeds, cats, 0, g, k);
  }

  // ---------------------------------------------------------------------
  // The orchestrator
  // ---------------------------------------------------------------------

  /**
   * The body of the inner loop of `fetch_articles` for one entry of `feed`.
   * `abort` reports an entry without a link: reading the link raises, and
   * the error handler reads it again, so the exception leaves the entry
   * guard and ends the feed.
   */
  method ProcessEntry(db: Database, env: Env, created: seq<ArticleId>, feed: Feed, entry: Entry, category: CategoryId)
    returns (abort: bool, created': seq<ArticleId>)
    requires db.Valid()
    modifies db`articles, db`nextArticleId
    ensures db.Valid()
    ensures (RunState(db.articles, db.nextArticleId, created'), abort)
         == EntryStep(env, RunState(old(db.articles), old(db.nextArticleId), created), feed, entry, category)
  {
    ghost var st := RunState(db.articles, db.nextArticleId, created);
    if entry.link.None? {
      return true, created;
    }
    abort := false;
    created' := created;
    var url := entry.link.value;
    if db.UrlTaken(url) {
      EntryStepSkips(env, st, feed, entry, category);
      return;
    }
    var content := env.extract(url);
    if |content| < MinContentLength {
      EntryStepSkips(env, st, feed, entry, category);
      return;
    }
    if entry.title.None? {
      EntryStepSkips(env, st, feed, entry, category);
      return;
    }
    created' := StoreEntry(db, env, created, feed, entry, content, category);
    EntryStepStores(env, st, feed, entry, category);
  }

  /** Summarise the entry's content, create its article, attach the audio, and list the article unless attaching failed. */
  method StoreEntry(db: Database, env: Env, created: seq<ArticleId>, feed: Feed, entry: Entry, content: string, category: CategoryId)
    returns (created': seq<ArticleId>)
    requires db.Valid()
    requires entry.link.Some? && entry.title.Some? && !db.UrlTaken(entry.link.value)
    requires content == env.extract(entry.link.value)
    modifies db`articles, db`nextArticleId
    ensures db.Valid()
    ensures RunState(db.articles, db.nextArticleId, created')
         == Stored(env, RunState(old(db.articles), old(db.nextArticleId), created), feed, entry, category)
    ensures old(db.nextArticleId) in db.articles && db.articles[old(db.nextArticleId)].categories == {category}
    ensures forall j: nat :: EntryAt(env, feed, j) == Some(entry) ==> IngestedFrom(env, db.articles[old(db.nextArticleId)], feed, j)
  {
    ghost var before := db.articles;
    var id, summary := CreateEntryArticle(db, env, feed, entry, content, category);
    ghost var row := CreatedRow(env, feed, entry, category, id);
    var returned := AttachAudio(db, env, id, summary);
    AttachedRow(env, feed, entry, category, id);
    UpdateTwice(before, id, row, StoredRow(env, feed, entry, category, id));
    StoredRowFields(env, feed, entry, category, id);
    created' := if returned then created + [id] else created;
    StoredState(env, RunState(before, id, created), feed, entry, category, db.articles, returned, created');
  }

  /** Summarise the entry's content and create its article row, approved and in the feed's category. */
  method CreateEntryArticle(db: Database, env: Env, feed: Feed, entry: Entry, content: string, category: CategoryId)
    returns (id: ArticleId, summary: string)
    requires db.Valid()
    requires entry.link.Some? && entry.title.Some? && !db.UrlTaken(entry.link.value)
    requires content == env.extract(entry.link.value)
    modifies db`articles, db`nextArticleId
    ensures db.Valid()
    ensures id == old(db.nextArticleId) && db.nextArticleId == id + 1 && id in db.articles
    ensures summary == SummaryFor(env, entry.link.value)
    ensures db.articles == old(db.articles)[id := CreatedRow(env, feed, entry, category, id)]
  {
    var url := entry.link.value;
    var waits, calls;
    summary, waits, calls := GetSummaryFromGemini(Some(content), env.model(url));
    id := db.CreateArticle(Article(0, Take(env.cleanHtml(entry.title.value), MaxTitleLength),
      entry.author.GetOr("Unknown"), content, url, feed.name, entry.published.GetOr(env.now), Some(summary),
      {category}, true, "", 0));
  }

  /**
   * Generate the audio for the summary of article `id` and, when there is
   * some, store its name on the article. `returned` is false when that save
   * raised, which drops the article from the returned list.
   */
  method AttachAudio(db: Database, env: Env, id: ArticleId, summary: string) returns (returned: bool)
    requires db.Valid() && id in db.articles
    modifies db`articles
    ensures db.Valid()
    ensures var audio := GenerateAudioSummary(Some(summary), id, env.ttsOk(old(db.articles)[id].url), env.mediaUrl);
      && returned == (audio.None? || env.saveOk(old(db.articles)[id].url))
      && db.articles == old(db.articles)[id :=
           if audio.Some? && returned then Saved(old(db.articles)[id].(audioFile := AudioName(id)))
           else old(db.articles)[id]]
  {
    var url := db.articles[id].url;
    var audio := GenerateAudioSummary(Some(summary), id, env.ttsOk(url), env.mediaUrl);
    returned := audio.None? || env.saveOk(url);
    if audio.Some? && returned {
      db.SaveArticle(db.articles[id].(audioFile := AudioName(id)));
    } else {
      assert db.articles == old(db.articles)[id := old(db.articles)[id]];
    }
  }

  /** The try block of one feed: parse it and process its first 7 entries in order, up to the first without a link. */
  method ProcessFeed(db: Database, env: Env, created: seq<ArticleId>, feed: Feed, category: CategoryId)
    returns (created': seq<ArticleId>)
    requires db.Valid()
    modifies db`articles, db`nextArticleId
    ensures db.Valid()
    ensures RunState(db.articles, db.nextArticleId, created')
         == EntriesFrom(env, RunState(old(db.articles), old(db.nextArticleId), created), feed, 0, category)
  {
    created' := created;
    var parsed := env.feed(feed.url);
    if parsed.None? {
      return;
    }
    var entries := Take(parsed.value, MaxEntriesPerFeed);
    var j := 0;
    while j < |entries|
      invariant 0 <= j <= |entries|
      invariant db.Valid()
      invariant EntriesFrom(env, RunState(db.articles, db.nextArticleId, created'), feed, j, category)
             == EntriesFrom(env, RunState(old(db.articles), old(db.nextArticleId), created), feed, 0, category)
    {
      assert EntryAt(env, feed, j) == Some(entries[j]);
      ghost var st := RunState(db.articles, db.nextArticleId, created');
      var abort;
      abort, created' := ProcessEntry(db, env, created', feed, entries[j], category);
      if abort {
        return;
      }
      assert EntriesFrom(env, st, feed, j, category) == EntriesFrom(env, RunState(db.articles, db.nextArticleId, created'), feed, j + 1, category);
      j := j + 1;
    }
    assert EntryAt(env, feed, j).None?;
  }

  /**
   * `fetch_articles()`: seed the categories (an exception there escapes:
   * None), then process the feeds of RSS_FEEDS in order. Returns the ids of
   * the articles created and returned, in processing order.
   */
  method FetchArticles(db: Database, env: Env) returns (result: Option<seq<ArticleId>>)
    requires db.Valid()
    modifies db`articles, db`nextArticleId, db`categories
    ensures db.Valid()
    ensures db.categories == SeedFrom(CategorySeeds, old(db.categories), map[]).0
    ensures result.None? <==> SeedFrom(CategorySeeds, old(db.categories), map[]).1.None?
    ensures result.None? ==> db.articles == old(db.articles)
    ensures result.Some? ==>
      RunState(db.articles, db.nextArticleId, result.value)
        == FeedsFrom(env, RunState(old(db.articles), old(db.nextArticleId), []), RssFeeds,
                     SeedFrom(CategorySeeds, old(db.categories), map[]).1.value, 0)
    ensures result.Some? ==> RunOk(env, RssFeeds, old(db.articles), db.articles, result.value)
  {
    var cats := CreateCategories(db);
    if cats.None? {
      return None;
    }
    var created := ProcessFeeds(db, env, RssFeeds, cats.value);
    FeedsRunOk(env, RssFeeds, old(db.articles), old(db.nextArticleId), cats.value);
    result := Some(created);
  }

  /** The loop over `feeds`, in order, once the categories are seeded; a feed whose category key is missing is skipped. */
  method ProcessFeeds(db: Database, env: Env, feeds: seq<Feed>, cats: map<string, CategoryId>) returns (created: seq<ArticleId>)
    requires db.Valid()
    modifies db`articles, db`nextArticleId
    ensures db.Valid()
    ensures RunState(db.articles, db.nextArticleId, created)
         == FeedsFrom(env, RunState(old(db.articles), old(db.nextArticleId), []), feeds, cats, 0)
  {
    created := [];
    var f := 0;
    while f < |feeds|
      invariant 0 <= f <= |feeds|
      invariant db.Valid()
      invariant FeedsFrom(env, RunState(db.articles, db.nextArticleId, created), feeds, cats, f)
             == FeedsFrom(env, RunState(old(db.articles), old(db.nextArticleId), []), feeds, cats, 0)
    {
      var key := Lower(feeds[f].name);
      if key in cats {
        created := ProcessFeed(db, env, created, feeds[f], cats[key]);
      }
      f := f + 1;
    }
  }
}
