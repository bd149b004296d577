/**
 * The persistent records of news/models.py and the database that holds
 * them. Articles are rows keyed by their primary key; the like, bookmark,
 * metrics and feedback tables are keyed by (user, article) and the reaction
 * table holds (comment, user, type) triples, so the `unique_together`
 * constraints hold by the shape of the tables. The unique article URL and
 * the reading time that every save recomputes are invariants of the store.
 */
module Models {
  import opened Wrappers
  import opened PyStr

  type UserId = nat
  type ArticleId = nat
  type CategoryId = nat
  type CommentId = nat

  /** Reading speed behind the reading-time estimate, in words per minute. */
  const WordsPerMinute: nat := 225

  /** The number of whitespace-separated words, `len(content.split())`. */
  function WordCount(content: string): (words: nat)
    ensures words <= |content|
  {
    |Split(content)|
  }

  /** `max(1, ceil(words / 225))`. */
  function MinutesFor(words: nat): (minutes: nat)
    ensures 1 <= minutes && words <= WordsPerMinute * minutes
    ensures minutes == 1 || WordsPerMinute * (minutes - 1) < words
  {
    var m := (words + WordsPerMinute - 1) / WordsPerMinute;
    if m < 1 then 1 else m
  }

  /** The reading time `Article.save` stores: 0 for empty content, otherwise the smallest whole number of minutes (at least one) that covers every word. */
  function ReadingTime(content: string): (minutes: nat)
    ensures minutes == 0 <==> content == []
    ensures content != [] ==>
      && 1 <= minutes
      && WordCount(content) <= WordsPerMinute * minutes
      && (minutes == 1 || WordsPerMinute * (minutes - 1) < WordCount(content))
  {
    if content == [] then 0 else MinutesFor(WordCount(content))
  }

  /** Content made only of whitespace has no words, yet it is not empty, so it is charged one minute. */
  lemma ReadingTimeOfBlankContent(content: string)
    requires content != []
    requires forall i :: 0 <= i < |content| ==> IsSpace(content[i])
    ensures WordCount(content) == 0 && ReadingTime(content) == 1
  {
    SplitEmptyIff(content);
  }

  /** Among non-empty contents, more words never give a shorter reading time. */
  lemma ReadingTimeMonotonic(a: string, b: string)
    requires a != [] && b != [] && WordCount(a) <= WordCount(b)
    ensures ReadingTime(a) <= ReadingTime(b)
  {
    MinutesForMonotonic(WordCount(a), WordCount(b));
  }

  lemma MinutesForMonotonic(x: nat, y: nat)
    requires x <= y
    ensures MinutesFor(x) <= MinutesFor(y)
  {
    var qx, qy := (x + 224) / 225, (y + 224) / 225;
    assert 225 * qx <= x + 224 < 225 * qx + 225;
    assert 225 * qy <= y + 224 < 225 * qy + 225;
  }

  /** The boundary cases of the estimate: 1 and 225 words take one minute, 226 and 450 take two. */
  lemma ReadingTimeBoundaries()
    ensures MinutesFor(0) == 1 && MinutesFor(1) == 1 && MinutesFor(225) == 1
    ensures MinutesFor(226) == 2 && MinutesFor(450) == 2 && MinutesFor(451) == 3
  {
  }

  /** One row of the Article table. `audioFile` is the stored file name, "" when there is none. */
  datatype Article = Article(
    id: ArticleId,
    title: string,
    author: string,
    content: string,
    url: string,
    source: string,
    publishedAt: int,
    summary: Option<string>,
    categories: set<CategoryId>,
    approved: bool,
    audioFile: string,
    readingTime: nat)

  /** The row `Article.save` writes: the same article with its reading time recomputed from its content. */
  function Saved(a: Article): (r: Article)
    ensures r.readingTime == ReadingTime(a.content)
    ensures r.(readingTime := a.readingTime) == a
  {
    a.(readingTime := ReadingTime(a.content))
  }

  /** A row of CommentReaction. */
  datatype Reaction = Reaction(comment: CommentId, user: UserId, kind: string)

  /** A row of UserArticleMetrics; the scroll depth is only compared, never computed with. */
  datatype Metrics = Metrics(timeOnPage: int, scrollDepth: real)

  /** Position of the first row named `name`. */
  function IndexOf(t: seq<string>, name: string): (i: nat)
    requires name in t
    ensures i < |t| && t[i] == name && name !in t[..i]
  {
    if t[0] == name then 0 else 1 + IndexOf(t[1..], name)
  }

  /** Appending rows does not move the first row with a given name. */
  lemma {:induction false} IndexOfExtended(t: seq<string>, u: seq<string>, name: string)
    requires name in t
    ensures name in t + u && IndexOf(t + u, name) == IndexOf(t, name)
  {
    if t[0] != name {
      assert (t + u)[1..] == t[1..] + u;
      IndexOfExtended(t[1..], u, name);
    }
  }

  /**
   * `Category.objects.get_or_create(name=name)` on the category table `t`
   * (a category's id is its position): a missing name is appended, a name
   * held by one row gives that row, a name held by several rows raises
   * MultipleObjectsReturned (None).
   */
  function CategoryGetOrCreate(t: seq<string>, name: string): (r: Option<(seq<string>, CategoryId)>)
    ensures r.None? <==> multiset(t)[name] >= 2
    ensures r.Some? ==> |t| <= |r.value.0| <= |t| + 1 && r.value.1 < |r.value.0| && r.value.0[r.value.1] == name
  {
    var n := multiset(t)[name];
    if n == 0 then Some((t + [name], |t|))
    else if n == 1 then Some((t, IndexOf(t, name)))
    else None
  }

  /**
   * get_or_create fails exactly when two or more rows hold the name; on
   * success the table has only grown by that name, holds it exactly once,
   * and the id returned is the row holding it.
   */
  lemma CategoryGetOrCreateFacts(t: seq<string>, name: string)
    ensures CategoryGetOrCreate(t, name).None? <==> multiset(t)[name] >= 2
    ensures var r := CategoryGetOrCreate(t, name);
      r.Some? ==>
        var grown := r.value.0;
        && |t| <= |grown| && grown[..|t|] == t
        && (multiset(t)[name] == 1 ==> grown == t)
        && multiset(grown)[name] == 1 && name in grown && r.value.1 == IndexOf(grown, name)
        && (forall x :: x != name ==> multiset(grown)[x] == multiset(t)[x])
  {
    if multiset(t)[name] == 0 {
      var t' := t + [name];
      assert t'[..|t|] == t;
    }
  }

  /** Article rows: keyed by their id, ids below the next one to hand out, URLs unique, reading time as the last save computed it. */
  ghost predicate ArticlesOk(articles: map<ArticleId, Article>, nextArticleId: ArticleId) {
    && (forall id :: id in articles ==> articles[id].id == id && id < nextArticleId)
    && (forall i, j :: i in articles && j in articles && articles[i].url == articles[j].url ==> i == j)
    && (forall id :: id in articles ==> articles[id].readingTime == ReadingTime(articles[id].content))
  }

  /** Some row has URL `url`: `Article.objects.filter(url=url).exists()`. */
  predicate UrlIn(articles: map<ArticleId, Article>, url: string) {
    exists id :: id in articles && articles[id].url == url
  }

  /** Adding a row with a new URL, under the next id, with its reading time computed, keeps the article invariant. */
  lemma ArticlesOkExtend(articles: map<ArticleId, Article>, next: ArticleId, a: Article)
    requires ArticlesOk(articles, next) && !UrlIn(articles, a.url)
    requires a.id == next && a.readingTime == ReadingTime(a.content)
    ensures ArticlesOk(articles[next := a], next + 1)
  {
    var m := articles[next := a];
    forall id | id in m
      ensures m[id].id == id && id < next + 1 && m[id].readingTime == ReadingTime(m[id].content)
    {
      if id != next {
        assert m[id] == articles[id];
      }
    }
    forall id | id in articles
      ensures articles[id].url != a.url
    {
    }
  }

  /** Every (user, article) row refers to an existing article. */
  ghost predicate PairsOk(rows: set<(UserId, ArticleId)>, articles: map<ArticleId, Article>) {
    forall p :: p in rows ==> p.1 in articles
  }

  /** Every reaction refers to an existing comment. */
  ghost predicate ReactionsOk(reactions: set<Reaction>, comments: map<CommentId, ArticleId>) {
    forall r :: r in reactions ==> r.comment in comments
  }

  /** Adding an article row keeps every reference to an existing article valid. */
  lemma PairsOkGrow(rows: set<(UserId, ArticleId)>, articles: map<ArticleId, Article>, id: ArticleId, a: Article)
    requires PairsOk(rows, articles)
    ensures PairsOk(rows, articles[id := a])
  {
  }

  lemma PairsOkAdd(rows: set<(UserId, ArticleId)>, p: (UserId, ArticleId), articles: map<ArticleId, Article>)
    requires PairsOk(rows, articles) && p.1 in articles
    ensures PairsOk(rows + {p}, articles)
  {
  }

  class Database {
    var articles: map<ArticleId, Article>
    var nextArticleId: ArticleId
    var categories: seq<string>
    var comments: map<CommentId, ArticleId>
    var likes: set<(UserId, ArticleId)>
    var bookmarks: set<(UserId, ArticleId)>
    var metrics: map<(UserId, ArticleId), Metrics>
    var feedback: map<(UserId, ArticleId), bool>
    var reactions: set<Reaction>

    ghost predicate Valid()
      reads this
    {
      && ArticlesOk(articles, nextArticleId)
      && PairsOk(likes, articles) && PairsOk(bookmarks, articles)
      && PairsOk(metrics.Keys, articles) && PairsOk(feedback.Keys, articles)
      && (forall c :: c in comments ==> comments[c] in articles)
      && ReactionsOk(reactions, comments)
    }

    constructor ()
      ensures Valid()
      ensures articles == map[] && nextArticleId == 1 && categories == [] && comments == map[]
      ensures likes == {} && bookmarks == {} && metrics == map[] && feedback == map[] && reactions == {}
    {
      articles, nextArticleId, categories, comments := map[], 1, [], map[];
      likes, bookmarks, metrics, feedback, reactions := {}, {}, map[], map[], {};
    }

    /** `Article.objects.filter(url=url).exists()` on this store. */
    predicate UrlTaken(url: string)
      reads this
    {
      UrlIn(articles, url)
    }

    /**
     * `Article.objects.create(...)`: the row gets the next id and is saved,
     * so its reading time is computed. The unique index on `url` admits the
     * row only when no row has its URL.
     */
    method CreateArticle(a: Article) returns (id: ArticleId)
      requires Valid()
      requires !UrlTaken(a.url)
      modifies this`articles, this`nextArticleId
      ensures Valid()
      ensures id == old(nextArticleId) && id !in old(articles)
      ensures articles == old(articles)[id := Saved(a.(id := id))]
      ensures nextArticleId == id + 1
    {
      id := nextArticleId;
      var row := Saved(a.(id := id));
      ArticlesOkExtend(articles, id, row);
      PairsOkGrow(likes, articles, id, row);
      PairsOkGrow(bookmarks, articles, id, row);
      PairsOkGrow(metrics.Keys, articles, id, row);
      PairsOkGrow(feedback.Keys, articles, id, row);
      articles := articles[id := row];
      nextArticleId := nextArticleId + 1;
    }

    /** `article.save()` on an existing row that keeps its URL: the reading time is recomputed and overwrites the stored one. */
    method SaveArticle(a: Article)
      requires Valid()
      requires a.id in articles && a.url == articles[a.id].url
      modifies this`articles
      ensures Valid()
      ensures articles == old(articles)[a.id := Saved(a)]
    {
      articles := articles[a.id := Saved(a)];
    }

    /** Writing the like table: every row names an existing article. */
    method SetLikes(rows: set<(UserId, ArticleId)>)
      requires Valid() && PairsOk(rows, articles)
      modifies this`likes
      ensures Valid() && likes == rows
    {
      likes := rows;
    }

    /** Writing the bookmark table: every row names an existing article. */
    method SetBookmarks(rows: set<(UserId, ArticleId)>)
      requires Valid() && PairsOk(rows, articles)
      modifies this`bookmarks
      ensures Valid() && bookmarks == rows
    {
      bookmarks := rows;
    }

    /** Writing the reaction table: every reaction names an existing comment. */
    method SetReactions(rs: set<Reaction>)
      requires Valid() && ReactionsOk(rs, comments)
      modifies this`reactions
      ensures Valid() && reactions == rs
    {
      reactions := rs;
    }

    /** Saving the metrics row of `key`, whose article exists. */
    method PutMetrics(key: (UserId, ArticleId), row: Metrics)
      requires Valid() && key.1 in articles
      modifies this`metrics
      ensures Valid() && metrics == old(metrics)[key := row]
    {
      PairsOkAdd(metrics.Keys, key, articles);
      assert metrics[key := row].Keys == metrics.Keys + {key};
      metrics := metrics[key := row];
    }

    /** Saving the feedback row of `key`, whose article exists. */
    method PutFeedback(key: (UserId, ArticleId), useful: bool)
      requires Valid() && key.1 in articles
      modifies this`feedback
      ensures Valid() && feedback == old(feedback)[key := useful]
    {
      PairsOkAdd(feedback.Keys, key, articles);
      assert feedback[key := useful].Keys == feedback.Keys + {key};
      feedback := feedback[key := useful];
    }

    /** `Category.objects.get_or_create(name=name)` on the category table. */
    method GetOrCreateCategory(name: string) returns (id: Option<CategoryId>)
      modifies this`categories
      ensures match CategoryGetOrCreate(old(categories), name)
        case None => id == None && categories == old(categories)
        case Some((t, c)) => id == Some(c) && categories == t
    {
      var n := multiset(categories)[name];
      if n == 0 {
        id := Some(|categories|);
        categories := categories + [name];
      } else if n == 1 {
        id := Some(IndexOf(categories, name));
      } else {
        id := None;
      }
    }
  }
}
