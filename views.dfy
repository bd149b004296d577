/**
 * The interactive views of the news app: the like and bookmark toggles,
 * comment reactions, reading metrics, summary feedback, the FAQ chatbot and
 * the two audio endpoints. Each view is a method over the store; the
 * request is reduced to the values the view reads, and a response to the
 * decision it reports.
 */
module NewsViews {
  import opened Wrappers
  import opened PyStr
  import opened Models
  import opened Scraper

  // ---------------------------------------------------------------------
  // Like and bookmark toggles
  // ---------------------------------------------------------------------

  /** The set with `x` flipped: removed when present, added when absent. */
  function Toggle(s: set<(UserId, ArticleId)>, x: (UserId, ArticleId)): (r: set<(UserId, ArticleId)>)
    ensures x in r <==> x !in s
    ensures forall y :: y != x ==> (y in r <==> y in s)
  {
    if x in s then s - {x} else s + {x}
  }

  /** Toggling twice restores the original set. */
  lemma ToggleInvolution(s: set<(UserId, ArticleId)>, x: (UserId, ArticleId))
    ensures Toggle(Toggle(s, x), x) == s
  {
  }

  /** The number of (user, article) rows for article `a`. */
  function RowsFor(rows: set<(UserId, ArticleId)>, a: ArticleId): set<(UserId, ArticleId)> {
    set p | p in rows && p.1 == a
  }

  /** `article.likes.count()` after a toggle moves by one in the direction of the flip. */
  lemma ToggleCount(rows: set<(UserId, ArticleId)>, u: UserId, a: ArticleId)
    ensures (u, a) !in rows ==> |RowsFor(Toggle(rows, (u, a)), a)| == |RowsFor(rows, a)| + 1
    ensures (u, a) in rows ==> |RowsFor(Toggle(rows, (u, a)), a)| == |RowsFor(rows, a)| - 1
  {
    if (u, a) in rows {
      assert RowsFor(Toggle(rows, (u, a)), a) == RowsFor(rows, a) - {(u, a)};
    } else {
      assert RowsFor(Toggle(rows, (u, a)), a) == RowsFor(rows, a) + {(u, a)};
    }
  }

  /** Toggling one user's row leaves the rows of every other article untouched. */
  lemma ToggleOtherArticles(rows: set<(UserId, ArticleId)>, u: UserId, a: ArticleId, b: ArticleId)
    requires b != a
    ensures RowsFor(Toggle(rows, (u, a)), b) == RowsFor(rows, b)
  {
  }

  /** A toggle on an existing article keeps every row pointing at an existing article. */
  lemma ToggleKeepsPairs(rows: set<(UserId, ArticleId)>, x: (UserId, ArticleId), articles: map<ArticleId, Article>)
    requires PairsOk(rows, articles) && x.1 in articles
    ensures PairsOk(Toggle(rows, x), articles)
  {
  }

  datatype LikeResponse = LikeArticleNotFound | LikeToggled(isLiked: bool, totalLikes: nat)

  /** `toggle_article_like`: flip the user's like; report the new state and the article's like count. */
  method ToggleArticleLike(db: Database, user: UserId, article: ArticleId) returns (resp: LikeResponse)
    requires db.Valid()
    modifies db`likes
    ensures db.Valid()
    ensures article !in db.articles ==> resp == LikeArticleNotFound && db.likes == old(db.likes)
    ensures article in db.articles ==>
      && db.likes == Toggle(old(db.likes), (user, article))
      && resp == LikeToggled((user, article) !in old(db.likes), |RowsFor(db.likes, article)|)
  {
    if article !in db.articles {
      return LikeArticleNotFound;
    }
    var liked := (user, article) !in db.likes;
    ToggleKeepsPairs(db.likes, (user, article), db.articles);
    db.SetLikes(Toggle(db.likes, (user, article)));
    resp := LikeToggled(liked, |RowsFor(db.likes, article)|);
  }

  datatype BookmarkResponse = BookmarkArticleNotFound | BookmarkToggled(isBookmarked: bool)

  /** `toggle_article_bookmark`: flip the user's bookmark; report the new state. */
  method ToggleArticleBookmark(db: Database, user: UserId, article: ArticleId) returns (resp: BookmarkResponse)
    requires db.Valid()
    modifies db`bookmarks
    ensures db.Valid()
    ensures article !in db.articles ==> resp == BookmarkArticleNotFound && db.bookmarks == old(db.bookmarks)
    ensures article in db.articles ==>
      && db.bookmarks == Toggle(old(db.bookmarks), (user, article))
      && resp == BookmarkToggled((user, article) in db.bookmarks)
  {
    if article !in db.articles {
      return BookmarkArticleNotFound;
    }
    ToggleKeepsPairs(db.bookmarks, (user, article), db.articles);
    db.SetBookmarks(Toggle(db.bookmarks, (user, article)));
    resp := BookmarkToggled((user, article) in db.bookmarks);
  }

  // ---------------------------------------------------------------------
  // Comment reactions
  // ---------------------------------------------------------------------

  /** The values of CommentReaction.REACTION_CHOICES. */
  const ReactionChoices: seq<string> := ["like", "love", "laugh", "idea"]

  /** A JSON request body: not JSON at all, JSON that is not an object, or an object's fields of interest. */
  datatype Body<T> = InvalidJson | NotAnObject | Fields(fields: T)

  datatype ReactionResponse =
    | CommentNotFound
    | ReactionBadJson
    | InvalidReaction
    | ReactionServerError
    | ReactionCounts(like: nat, love: nat, laugh: nat, idea: nat)

  /** The kinds of reaction user `u` has on comment `c`. */
  function KindsOf(rs: set<Reaction>, c: CommentId, u: UserId): set<string> {
    set r | r in rs && r.comment == c && r.user == u :: r.kind
  }

  /** Delete every reaction of `u` on `c`, then create the one of kind `kind`. */
  function ReplaceReaction(rs: set<Reaction>, c: CommentId, u: UserId, kind: string): (r: set<Reaction>)
    ensures KindsOf(r, c, u) == {kind}
    ensures forall x: Reaction :: (x.comment != c || x.user != u) ==> (x in r <==> x in rs)
  {
    var r := (set x | x in rs && (x.comment != c || x.user != u)) + {Reaction(c, u, kind)};
    assert KindsOf(r, c, u) == {kind} by {
      forall k | k in KindsOf(r, c, u)
        ensures k == kind
      {
        var x :| x in r && x.comment == c && x.user == u && x.kind == k;
      }
      assert Reaction(c, u, kind) in r;
    }
    r
  }

  /** Sending the same reaction again changes nothing: it is never toggled off. */
  lemma ReplaceReactionIdempotent(rs: set<Reaction>, c: CommentId, u: UserId, kind: string)
    ensures ReplaceReaction(ReplaceReaction(rs, c, u, kind), c, u, kind) == ReplaceReaction(rs, c, u, kind)
  {
    var once := ReplaceReaction(rs, c, u, kind);
    var twice := ReplaceReaction(once, c, u, kind);
    forall x | x in twice
      ensures x in once
    {
      if x.comment == c && x.user == u {
        assert x.kind in KindsOf(twice, c, u);
        assert x == Reaction(c, u, kind);
        assert kind in KindsOf(once, c, u);
      }
    }
    forall x | x in once
      ensures x in twice
    {
      if x.comment == c && x.user == u {
        assert x.kind in KindsOf(once, c, u);
        assert kind in KindsOf(twice, c, u);
      }
    }
  }

  /** Replacing a reaction on an existing comment keeps every reaction pointing at an existing comment. */
  lemma ReplaceReactionKeepsRefs(rs: set<Reaction>, c: CommentId, u: UserId, kind: string, comments: map<CommentId, ArticleId>)
    requires ReactionsOk(rs, comments) && c in comments
    ensures ReactionsOk(ReplaceReaction(rs, c, u, kind), comments)
  {
  }

  /** The number of reactions of kind `kind` on comment `c`. */
  function CountKind(rs: set<Reaction>, c: CommentId, kind: string): nat {
    |set r | r in rs && r.comment == c && r.kind == kind|
  }

  /** `toggle_comment_reaction`: one reaction per user per comment, of the requested kind. */
  method ToggleCommentReaction(db: Database, user: UserId, comment: CommentId, body: Body<Option<string>>)
    returns (resp: ReactionResponse)
    requires db.Valid()
    modifies db`reactions
    ensures db.Valid()
    ensures resp.ReactionCounts? <==>
      comment in db.comments && body.Fields? && body.fields.Some? && body.fields.value in ReactionChoices
    ensures !resp.ReactionCounts? ==> db.reactions == old(db.reactions)
    ensures comment !in db.comments ==> resp == CommentNotFound
    ensures comment in db.comments && body.InvalidJson? ==> resp == ReactionBadJson
    ensures comment in db.comments && body.NotAnObject? ==> resp == ReactionServerError
    ensures comment in db.comments && body.Fields? && (body.fields.None? || body.fields.value !in ReactionChoices) ==>
      resp == InvalidReaction
    ensures resp.ReactionCounts? ==>
      && db.reactions == ReplaceReaction(old(db.reactions), comment, user, body.fields.value)
      && resp == ReactionCounts(CountKind(db.reactions, comment, "like"), CountKind(db.reactions, comment, "love"),
                                CountKind(db.reactions, comment, "laugh"), CountKind(db.reactions, comment, "idea"))
  {
    if comment !in db.comments {
      return CommentNotFound;
    }
    match body
    case InvalidJson =>
      return ReactionBadJson;
    case NotAnObject =>
      return ReactionServerError;
    case Fields(reactionType) =>
      if reactionType.None? || reactionType.value !in ReactionChoices {
        return InvalidReaction;
      }
      ReplaceReactionKeepsRefs(db.reactions, comment, user, reactionType.value, db.comments);
      db.SetReactions(ReplaceReaction(db.reactions, comment, user, reactionType.value));
      resp := ReactionCounts(CountKind(db.reactions, comment, "like"), CountKind(db.reactions, comment, "love"),
                             CountKind(db.reactions, comment, "laugh"), CountKind(db.reactions, comment, "idea"));
  }

  // ---------------------------------------------------------------------
  // Reading metrics
  // ---------------------------------------------------------------------

  /** The fields `track_article_metrics` reads; a missing field is None. */
  datatype MetricsFields = MetricsFields(articleId: Option<ArticleId>, timeOnPage: Option<int>, scrollDepth: Option<real>)

  datatype MetricsResponse = MetricsUpdated | MetricsBadJson | MetricsServerError

  /** The metrics upsert: a new row takes the values given; an existing row takes the new time and the larger scroll depth. */
  function UpsertMetrics(m: map<(UserId, ArticleId), Metrics>, key: (UserId, ArticleId), time: int, scroll: real)
    : (r: map<(UserId, ArticleId), Metrics>)
    ensures key in r && r[key].timeOnPage == time && r[key].scrollDepth >= scroll
  {
    if key in m then
      m[key := Metrics(time, if scroll > m[key].scrollDepth then scroll else m[key].scrollDepth)]
    else m[key := Metrics(time, scroll)]
  }

  /** One upsert: only the row for `key` changes, its time is the one given, and its scroll depth never decreases. */
  lemma UpsertMetricsFacts(m: map<(UserId, ArticleId), Metrics>, key: (UserId, ArticleId), time: int, scroll: real)
    ensures var r := UpsertMetrics(m, key, time, scroll);
      && r.Keys == m.Keys + {key}
      && (forall k :: k in m && k != key ==> r[k] == m[k])
      && r[key].timeOnPage == time
      && r[key].scrollDepth >= scroll
      && (key in m ==> r[key].scrollDepth >= m[key].scrollDepth)
      && (key in m ==> r[key].scrollDepth == scroll || r[key].scrollDepth == m[key].scrollDepth)
      && (key !in m ==> r[key] == Metrics(time, scroll))
  {
  }

  /** The larger of two scroll depths. */
  function MaxDepth(a: real, b: real): real {
    if a >= b then a else b
  }

  /** The largest scroll depth of a non-empty series of reports. */
  function MaxScroll(reports: seq<(int, real)>): real
    requires reports != []
  {
    if |reports| == 1 then reports[0].1
    else MaxDepth(MaxScroll(reports[..|reports| - 1]), reports[|reports| - 1].1)
  }

  /** A series of reports for the same (user, article), applied in order. */
  function UpsertAll(m: map<(UserId, ArticleId), Metrics>, key: (UserId, ArticleId), reports: seq<(int, real)>)
    : map<(UserId, ArticleId), Metrics>
  {
    if reports == [] then m
    else
      var last := reports[|reports| - 1];
      UpsertMetrics(UpsertAll(m, key, reports[..|reports| - 1]), key, last.0, last.1)
  }

  /**
   * Starting without a row, after any non-empty series of reports the row
   * holds the last time on page and the largest scroll depth reported.
   */
  lemma {:induction false} UpsertAllLastTimeMaxScroll(m: map<(UserId, ArticleId), Metrics>, key: (UserId, ArticleId),
                                                      reports: seq<(int, real)>)
    requires key !in m && reports != []
    ensures var r := UpsertAll(m, key, reports);
      key in r && r[key] == Metrics(reports[|reports| - 1].0, MaxScroll(reports))
  {
    if |reports| > 1 {
      var init := reports[..|reports| - 1];
      UpsertAllLastTimeMaxScroll(m, key, init);
      assert init[..|init| - 1] == reports[..|reports| - 1][..|init| - 1];
    } else {
      assert reports[..0] == [];
    }
  }

  /** `track_article_metrics`; a missing article raises Http404, which the generic handler turns into a 500. */
  method TrackArticleMetrics(db: Database, user: UserId, body: Body<MetricsFields>) returns (resp: MetricsResponse)
    requires db.Valid()
    modifies db`metrics
    ensures db.Valid()
    ensures body.InvalidJson? ==> resp == MetricsBadJson
    ensures !body.InvalidJson? && resp != MetricsUpdated ==> resp == MetricsServerError
    ensures resp == MetricsUpdated <==> body.Fields? && body.fields.articleId.Some? && body.fields.articleId.value in db.articles
    ensures resp != MetricsUpdated ==> db.metrics == old(db.metrics)
    ensures resp == MetricsUpdated ==>
      db.metrics == UpsertMetrics(old(db.metrics), (user, body.fields.articleId.value),
                                  body.fields.timeOnPage.GetOr(0), body.fields.scrollDepth.GetOr(0.0))
  {
    match body
    case InvalidJson =>
      return MetricsBadJson;
    case NotAnObject =>
      return MetricsServerError;
    case Fields(fields) =>
      if fields.articleId.None? || fields.articleId.value !in db.articles {
        return MetricsServerError;
      }
      StoreMetrics(db, (user, fields.articleId.value), fields.timeOnPage.GetOr(0), fields.scrollDepth.GetOr(0.0));
      resp := MetricsUpdated;
  }

  /** `get_or_create` on the metrics row, then the time is overwritten and the scroll depth raised. */
  method StoreMetrics(db: Database, key: (UserId, ArticleId), time: int, scroll: real)
    requires db.Valid() && key.1 in db.articles
    modifies db`metrics
    ensures db.Valid()
    ensures db.metrics == UpsertMetrics(old(db.metrics), key, time, scroll)
  {
    var row := Metrics(time, scroll);
    if key in db.metrics {
      row := db.metrics[key].(timeOnPage := time);
      if scroll > row.scrollDepth {
        row := row.(scrollDepth := scroll);
      }
    }
    db.PutMetrics(key, row);
  }

  // ---------------------------------------------------------------------
  // Summary feedback
  // ---------------------------------------------------------------------

  datatype FeedbackResponse = FeedbackArticleNotFound | FeedbackCreated | FeedbackUpdated

  /** The feedback is useful exactly when the POST field `feedback` is "useful". */
  predicate IsUseful(field: Option<string>) {
    field == Some("useful")
  }

  /** `article_feedback`: update_or_create of the user's verdict on the article. */
  method ArticleFeedback(db: Database, user: UserId, article: ArticleId, field: Option<string>)
    returns (resp: FeedbackResponse)
    requires db.Valid()
    modifies db`feedback
    ensures db.Valid()
    ensures article !in db.articles ==> resp == FeedbackArticleNotFound && db.feedback == old(db.feedback)
    ensures article in db.articles ==>
      && db.feedback == old(db.feedback)[(user, article) := IsUseful(field)]
      && (resp == FeedbackCreated <==> (user, article) !in old(db.feedback))
      && resp != FeedbackArticleNotFound
  {
    if article !in db.articles {
      return FeedbackArticleNotFound;
    }
    var created := (user, article) !in db.feedback;
    db.PutFeedback((user, article), IsUseful(field));
    resp := if created then FeedbackCreated else FeedbackUpdated;
  }

  /** A series of submissions by the same user on the same article, applied in order. */
  function FeedbackAll(m: map<(UserId, ArticleId), bool>, key: (UserId, ArticleId), fields: seq<Option<string>>)
    : map<(UserId, ArticleId), bool>
  {
    if fields == [] then m
    else FeedbackAll(m, key, fields[..|fields| - 1])[key := IsUseful(fields[|fields| - 1])]
  }

  /** After any non-empty series of submissions the stored verdict is the last one; other rows are untouched. */
  lemma {:induction false} FeedbackLastWins(m: map<(UserId, ArticleId), bool>, key: (UserId, ArticleId),
                                            fields: seq<Option<string>>)
    ensures var r := FeedbackAll(m, key, fields);
      && r.Keys == (if fields == [] then m.Keys else m.Keys + {key})
      && (forall k :: k in m && k != key ==> r[k] == m[k])
      && (fields != [] ==> r[key] == IsUseful(fields[|fields| - 1]))
  {
    if fields != [] {
      FeedbackLastWins(m, key, fields[..|fields| - 1]);
    }
  }

  // ---------------------------------------------------------------------
  // Chatbot
  // ---------------------------------------------------------------------

  const DidntGetThat: string := "I'm sorry, I didn't get that. Could you ask again?"
  const NoAnswer: string := "I'm sorry, I don't have an answer for that yet. Please try asking in a different way."
  const NotSure: string := "I'm sorry, I'm not sure how to help with that. Could you be more specific?"

  /** An FAQ row: comma-separated keywords and the answer. */
  datatype Faq = Faq(keywords: string, answer: string)

  /** The `message` field: absent (read as ""), a string, or some other JSON value (null, a number...). */
  datatype Message = Absent | Text(text: string) | NotText

  datatype ChatResponse = Answer(text: string) | ChatBadJson | ChatServerError

  /** The FAQ's keyword list: each comma-separated part trimmed and lower-cased. */
  function KeywordList(keywords: string): (kws: seq<string>)
    ensures 1 <= |kws| <= |keywords| + 1
    ensures forall k :: 0 <= k < |kws| ==> kws[k] == [] || (!IsSpace(kws[k][0]) && !IsSpace(kws[k][|kws[k]| - 1]))
  {
    var parts := SplitOn(keywords, ',');
    seq(|parts|, i requires 0 <= i < |parts| => Lower(Strip(parts[i])))
  }

  /** The number of user words, repeats included, that equal one of the keywords. */
  function ScoreOf(words: seq<string>, kws: seq<string>): (score: nat)
    ensures score <= |words|
  {
    if words == [] then 0
    else ScoreOf(words[..|words| - 1], kws) + (if words[|words| - 1] in kws then 1 else 0)
  }

  /** `keywords__icontains=word` for some user word: the database prefilter. */
  predicate Matches(faq: Faq, words: seq<string>) {
    exists w :: w in words && Contains(Lower(faq.keywords), w)
  }

  /** The FAQs that pass the prefilter, in table order. */
  function Candidates(faqs: seq<Faq>, words: seq<string>): (r: seq<Faq>)
    ensures forall f :: f in r <==> f in faqs && Matches(f, words)
  {
    if faqs == [] then []
    else
      var init := Candidates(faqs[..|faqs| - 1], words);
      var f := faqs[|faqs| - 1];
      assert faqs == faqs[..|faqs| - 1] + [f];
      if Matches(f, words) then init + [f] else init
  }

  /** The score of candidate `i`. */
  function ScoreAt(cands: seq<Faq>, words: seq<string>, i: nat): nat
    requires i < |cands|
  {
    ScoreOf(words, KeywordList(cands[i].keywords))
  }

  /**
   * A keyword that scores was a comma-separated part of the FAQ's keywords,
   * so any FAQ with a positive score passes the substring prefilter: the
   * prefilter never drops an FAQ the scoring would have chosen.
   */
  lemma {:induction false} ScoredFaqMatches(faq: Faq, words: seq<string>)
    requires ScoreOf(words, KeywordList(faq.keywords)) > 0
    ensures Matches(faq, words)
  {
    var w := ScoringWord(words, KeywordList(faq.keywords));
    var parts := SplitOn(faq.keywords, ',');
    var kws := KeywordList(faq.keywords);
    var i :| 0 <= i < |kws| && kws[i] == w;
    SplitOnParts(faq.keywords, ',');
    ContainsStrip(parts[i]);
    ContainsTransitive(faq.keywords, parts[i], Strip(parts[i]));
    ContainsLower(faq.keywords, Strip(parts[i]));
  }

  /** A word that contributed to a positive score. */
  lemma {:induction false} ScoringWord(words: seq<string>, kws: seq<string>) returns (w: string)
    requires ScoreOf(words, kws) > 0
    ensures w in words && w in kws
  {
    var last := words[|words| - 1];
    if last in kws {
      w := last;
    } else {
      w := ScoringWord(words[..|words| - 1], kws);
    }
  }

  /** `score` for one FAQ: the inner loop over the user words. */
  method Score(words: seq<string>, kws: seq<string>) returns (score: nat)
    ensures score == ScoreOf(words, kws)
    ensures score <= |words|
  {
    score := 0;
    var i := 0;
    while i < |words|
      invariant 0 <= i <= |words|
      invariant score == ScoreOf(words[..i], kws) && score <= i
    {
      assert words[..i + 1][..i] == words[..i];
      if words[i] in kws {
        score := score + 1;
      }
      i := i + 1;
    }
    assert words[..|words|] == words;
  }

  /** Candidate `i` has the strictly highest positive score among the candidates, and no earlier candidate ties it. */
  ghost predicate IsFirstBest(cands: seq<Faq>, words: seq<string>, i: nat) {
    && i < |cands|
    && ScoreAt(cands, words, i) > 0
    && (forall j :: 0 <= j < |cands| ==> ScoreAt(cands, words, j) <= ScoreAt(cands, words, i))
    && (forall j :: 0 <= j < i ==> ScoreAt(cands, words, j) < ScoreAt(cands, words, i))
  }

  /** Every candidate scores 0. */
  ghost predicate AllZero(cands: seq<Faq>, words: seq<string>) {
    forall j :: 0 <= j < |cands| ==> ScoreAt(cands, words, j) == 0
  }

  /** At most one candidate is the first best, so the choice is determined. */
  lemma FirstBestUnique(cands: seq<Faq>, words: seq<string>, i: nat, k: nat)
    requires IsFirstBest(cands, words, i) && IsFirstBest(cands, words, k)
    ensures i == k
  {
  }

  /**
   * The scoring loop: the index of the first candidate with the strictly
   * highest positive score, or None when every candidate scores 0.
   */
  method BestFaq(cands: seq<Faq>, words: seq<string>) returns (best: Option<nat>)
    ensures best.None? <==> AllZero(cands, words)
    ensures best.Some? ==> IsFirstBest(cands, words, best.value)
  {
    best := None;
    var highest := 0;
    var i := 0;
    while i < |cands|
      invariant 0 <= i <= |cands|
      invariant best.None? ==> highest == 0
      invariant forall j :: 0 <= j < i ==> ScoreAt(cands, words, j) <= highest
      invariant best.Some? ==> best.value < i && highest == ScoreAt(cands, words, best.value) && highest > 0
      invariant best.Some? ==> forall j :: 0 <= j < best.value ==> ScoreAt(cands, words, j) < highest
    {
      var score := Score(words, KeywordList(cands[i].keywords));
      if score > highest {
        highest := score;
        best := Some(i);
      }
      i := i + 1;
    }
    if best.Some? {
      assert ScoreAt(cands, words, best.value) > 0;
    }
  }

  /** The user message as the view reads it: lower-cased and stripped; an absent message reads as "". */
  function MessageText(m: Message): (text: string)
    requires !m.NotText?
    ensures m.Absent? ==> text == []
    ensures text == [] || (!IsSpace(text[0]) && !IsSpace(text[|text| - 1]))
  {
    Strip(Lower(if m.Text? then m.text else ""))
  }

  /** `chatbot_response` over the FAQ table `faqs`, in table order. */
  method ChatbotResponse(faqs: seq<Faq>, body: Body<Message>) returns (resp: ChatResponse)
    ensures body.InvalidJson? ==> resp == ChatBadJson
    ensures body.NotAnObject? || body == Fields(NotText) ==> resp == ChatServerError
    ensures body.Fields? && !body.fields.NotText? && MessageText(body.fields) == [] ==> resp == Answer(DidntGetThat)
    ensures body.Fields? && !body.fields.NotText? && MessageText(body.fields) != [] ==>
      var words := Split(MessageText(body.fields));
      var cands := Candidates(faqs, words);
      && (cands == [] ==> resp == Answer(NoAnswer))
      && (cands != [] && AllZero(cands, words) ==> resp == Answer(NotSure))
      && (!AllZero(cands, words) ==> exists i: nat :: IsFirstBest(cands, words, i) && resp == Answer(cands[i].answer))
  {
    match body
    case InvalidJson =>
      return ChatBadJson;
    case NotAnObject =>
      return ChatServerError;
    case Fields(message) =>
      if message.NotText? {
        return ChatServerError;
      }
      var msg := MessageText(message);
      if msg == [] {
        return Answer(DidntGetThat);
      }
      var words := Split(msg);
      var cands := Candidates(faqs, words);
      if cands == [] {
        return Answer(NoAnswer);
      }
      var best := BestFaq(cands, words);
      if best.None? {
        return Answer(NotSure);
      }
      resp := Answer(cands[best.value].answer);
      ghost var i := best.value;
      assert IsFirstBest(cands, words, i) && resp == Answer(cands[i].answer);
  }

  // ---------------------------------------------------------------------
  // Audio endpoints
  // ---------------------------------------------------------------------

  datatype AudioResponse =
    | AudioArticleNotFound
    | AudioNoSummary
    | AudioSummaryFailed
    | AudioReady(url: string)
    | AudioFailed

  /** A summary Python treats as present: neither NULL nor "". */
  predicate HasSummary(a: Article) {
    a.summary.Some? && a.summary.value != []
  }

  /**
   * The shared tail of both audio endpoints: existing audio is served as it
   * is; otherwise the audio is generated and, on success, its URL with the
   * first MEDIA_URL removed is stored as the file name.
   */
  method ServeAudio(db: Database, id: ArticleId, ttsOk: bool, mediaUrl: string) returns (resp: AudioResponse)
    requires db.Valid() && id in db.articles && HasSummary(db.articles[id])
    modifies db`articles
    ensures db.Valid()
    ensures var a := old(db.articles)[id];
      var url := GenerateAudioSummary(a.summary, id, ttsOk, mediaUrl);
      && (a.audioFile != [] ==> resp == AudioReady(mediaUrl + a.audioFile) && db.articles == old(db.articles))
      && (a.audioFile == [] && url.None? ==> resp == AudioFailed && db.articles == old(db.articles))
      && (a.audioFile == [] && url.Some? ==>
            && resp == AudioReady(url.value)
            && db.articles == old(db.articles)[id := Saved(a.(audioFile := RemoveFirst(url.value, mediaUrl)))])
  {
    var a := db.articles[id];
    if a.audioFile != [] {
      return AudioReady(mediaUrl + a.audioFile);
    }
    var url := GenerateAudioSummary(a.summary, id, ttsOk, mediaUrl);
    if url.None? {
      return AudioFailed;
    }
    db.SaveArticle(a.(audioFile := RemoveFirst(url.value, mediaUrl)));
    resp := AudioReady(url.value);
  }

  /** `generate_audio_view`: refuses an article without a summary. */
  method GenerateAudioView(db: Database, id: ArticleId, ttsOk: bool, mediaUrl: string) returns (resp: AudioResponse)
    requires db.Valid()
    modifies db`articles
    ensures db.Valid()
    ensures id !in old(db.articles) ==> resp == AudioArticleNotFound && db.articles == old(db.articles)
    ensures id in old(db.articles) && !HasSummary(old(db.articles)[id]) ==>
      resp == AudioNoSummary && db.articles == old(db.articles)
    ensures id in old(db.articles) && HasSummary(old(db.articles)[id]) && old(db.articles)[id].audioFile != [] ==>
      resp == AudioReady(mediaUrl + old(db.articles)[id].audioFile) && db.articles == old(db.articles)
    ensures id in old(db.articles) && HasSummary(old(db.articles)[id]) && old(db.articles)[id].audioFile == [] ==>
      var a := old(db.articles)[id];
      var url := GenerateAudioSummary(a.summary, id, ttsOk, mediaUrl);
      && (url.None? ==> resp == AudioFailed && db.articles == old(db.articles))
      && (url.Some? ==>
            && resp == AudioReady(url.value)
            && db.articles == old(db.articles)[id := Saved(a.(audioFile := RemoveFirst(url.value, mediaUrl)))])
  {
    if id !in db.articles {
      return AudioArticleNotFound;
    }
    if !HasSummary(db.articles[id]) {
      return AudioNoSummary;
    }
    resp := ServeAudio(db, id, ttsOk, mediaUrl);
  }

  /**
   * `GenerateAudioAPIView.post`: a missing summary is generated first (and
   * stored) from the article content; an empty generated summary is a 500.
   */
  method GenerateAudioApi(db: Database, id: ArticleId, model: nat -> Outcome, ttsOk: bool, mediaUrl: string)
    returns (resp: AudioResponse)
    requires db.Valid()
    modifies db`articles
    ensures db.Valid()
    ensures id !in old(db.articles) ==> resp == AudioArticleNotFound && db.articles == old(db.articles)
    ensures id in old(db.articles) ==>
      var a := old(db.articles)[id];
      var summary := if HasSummary(a) then a.summary.value else Summarize(Some(a.content), model).text;
      var a' := if HasSummary(a) then a else Saved(a.(summary := Some(summary)));
      var url := GenerateAudioSummary(Some(summary), id, ttsOk, mediaUrl);
      && id in db.articles
      && (summary == [] ==> resp == AudioSummaryFailed && db.articles == old(db.articles))
      && (summary != [] && a.audioFile != [] ==>
            resp == AudioReady(mediaUrl + a.audioFile) && db.articles == old(db.articles)[id := a'])
      && (summary != [] && a.audioFile == [] && url.None? ==>
            resp == AudioFailed && db.articles == old(db.articles)[id := a'])
      && (summary != [] && a.audioFile == [] && url.Some? ==>
            resp == AudioReady(url.value)
            && db.articles == old(db.articles)[id := Saved(a'.(audioFile := RemoveFirst(url.value, mediaUrl)))])
  {
    if id !in db.articles {
      return AudioArticleNotFound;
    }
    var ok := EnsureSummary(db, id, model);
    if !ok {
      return AudioSummaryFailed;
    }
    ghost var mid := db.articles;
    resp := ServeAudio(db, id, ttsOk, mediaUrl);
    UpdateTwice(old(db.articles), id, mid[id], db.articles[id]);
  }

  /** The summary step of the audio API: generate and store a summary when the article has none. */
  method EnsureSummary(db: Database, id: ArticleId, model: nat -> Outcome) returns (ok: bool)
    requires db.Valid() && id in db.articles
    modifies db`articles
    ensures db.Valid()
    ensures var a := old(db.articles)[id];
      var summary := if HasSummary(a) then a.summary.value else Summarize(Some(a.content), model).text;
      && ok == (summary != [])
      && (!ok ==> db.articles == old(db.articles))
      && (ok ==> db.articles == old(db.articles)[id := if HasSummary(a) then a else Saved(a.(summary := Some(summary)))])
      && (ok ==> HasSummary(db.articles[id]))
  {
    var a := db.articles[id];
    if HasSummary(a) {
      assert db.articles == old(db.articles)[id := a];
      return true;
    }
    var summary, _, _ := GetSummaryFromGemini(Some(a.content), model);
    if summary == [] {
      return false;
    }
    db.SaveArticle(a.(summary := Some(summary)));
    ok := true;
  }

  /**
   * With MEDIA_URL ending in '/', the name an audio endpoint stores is
   * news_audio/summary_<id>.mp3, and serving that stored name later gives
   * back the very URL the generation returned.
   */
  lemma StoredAudioNameServesSameUrl(mediaUrl: string, id: ArticleId)
    requires MediaUrlOk(mediaUrl)
    ensures RemoveFirst(AudioUrl(mediaUrl, id), mediaUrl) == AudioName(id)
    ensures mediaUrl + RemoveFirst(AudioUrl(mediaUrl, id), mediaUrl) == AudioUrl(mediaUrl, id)
  {
    AudioNameRoundTrip(mediaUrl, id);
  }
}
