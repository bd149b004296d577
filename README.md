# NewsGenie core, modelled in Dafny

NewsGenie is a Django news reader. It pulls articles from BBC RSS feeds, extracts their full text, asks a generative model for a summary, turns the summary into speech, and lets signed-in users like, bookmark, react, rate summaries, track their reading and ask an FAQ chatbot. This project models the decision rules at the heart of that application and proves what they promise.

- `wrappers.dfy` (`Wrappers`): the `Option` type.
- `pystr.dfy` (`PyStr`): the Python string operations the code relies on (`split`, `strip`, `lower`, `split(',')`, `in`, `replace(old, '', 1)`, `os.path.join`, decimal rendering), over ASCII character classes.
- `models.dfy` (`Models`): the Article record, the reading time every `Article.save` computes, `Category.objects.get_or_create`, and a `Database` class. The class holds the article, category, comment, like, bookmark, metrics, feedback and reaction tables. Its `Valid()` invariant states the unique URL, the reading time of every stored row, and that every row refers to an existing article or comment. The `unique_together` constraints hold by the shape of the tables: sets and maps keyed by (user, article), and a set of (comment, user, type) reactions.
- `scraper.dfy` (`Scraper`): the ingestion pipeline of `news/utils/scraper.py`. This covers text cleaning for speech, the selector-based fallback extractor, the summary retry policy, the audio result, category seeding and the `fetch_articles` orchestrator. Every network, parser, model and speech call is an input of the model. `Env` records the parsed feeds, the extractor's text, the outcome of each model call, whether speech synthesis and the audio save succeed, the HTML-to-text cleaner, the clock and `MEDIA_URL`.
- `views.dfy` (`NewsViews`): the like and bookmark toggles, the comment reaction, reading metrics, summary feedback, the FAQ chatbot, and the two audio endpoints. Each is a method over the `Database`. A request is reduced to the values the view reads, and a response to the decision it reports.
- `users.dfy` (`UserViews`): the login streak that `update_streak` keeps on the profile.

Loops in the source are loops in the model, each proved against a specification function: the selector search, the retry loop, the category seeding, the feed and entry loops (against the folds EntriesFrom and FeedsFrom), the chatbot scoring. Pure expressions (cleaning, reading time, the audio path) are functions, with lemmas about them.

## Model

| member | source | states |
|---|---|---|
| Models.ReadingTime | newsgenie-django-main/news/models.py:28-34 | The reading time is 0 exactly when the content is empty. Otherwise it is the least whole number of minutes, at least one, that covers the words at 225 words per minute. |
| Models.WordCount | newsgenie-django-main/news/models.py:30 | The content never has more words than characters. |
| Models.MinutesFor | newsgenie-django-main/news/models.py:31-32 | The least whole number of minutes, at least one, that covers the words at 225 words per minute. |
| Models.ReadingTimeOfBlankContent | newsgenie-django-main/news/models.py:29-32 | Content made only of whitespace has no words, yet it is charged one minute. |
| PyStr.SplitEmptyIff | newsgenie-django-main/news/models.py:30 | `content.split()` finds no word exactly when every character is whitespace. |
| Models.ReadingTimeMonotonic | newsgenie-django-main/news/models.py:30-32 | For non-empty content, more words never give a shorter reading time. |
| Models.ReadingTimeBoundaries | newsgenie-django-main/news/models.py:31-32 | 1 and 225 words take one minute, 226 and 450 take two, 451 take three. |
| Models.Saved | newsgenie-django-main/news/models.py:28-35 | A save overwrites the stored reading time with the one computed from the content and changes no other field. |
| Models.CategoryGetOrCreateFacts | newsgenie-django-main/news/utils/scraper.py:188 | `get_or_create(name=...)` fails exactly when two or more rows hold the name. On success the table has grown by that name at most, holds it exactly once, and the id is the row holding it. |
| Models.CategoryGetOrCreate | newsgenie-django-main/news/utils/scraper.py:188 | get_or_create fails exactly when two or more rows hold the name. On success the table grows by at most one row, and the id is a row holding the name. |
| Models.IndexOf | newsgenie-django-main/news/utils/scraper.py:188 | The category get_or_create returns the first row holding the name. |
| Models.Database.GetOrCreateCategory | newsgenie-django-main/news/utils/scraper.py:188 | The method on the category table does what CategoryGetOrCreate describes. |
| Models.Database.CreateArticle | newsgenie-django-main/news/models.py:12-35 | A created row gets the next id and a computed reading time. It is admitted only when its URL is new, so the unique URL invariant is kept. |
| Models.Database.SaveArticle | newsgenie-django-main/news/models.py:28-35 | Saving an existing row that keeps its URL recomputes its reading time and keeps the store invariant. |
| Models.Database.SetLikes | newsgenie-django-main/news/models.py:74-80 | The like table holds one row per (user, article), and each row names an existing article. |
| Models.Database.SetBookmarks | newsgenie-django-main/news/models.py:86-92 | The bookmark table holds one row per (user, article), and each row names an existing article. |
| Models.Database.PutMetrics | newsgenie-django-main/news/models.py:111-119 | The metrics table keeps one row per (user, article); writing a row replaces that key only. |
| Models.Database.PutFeedback | newsgenie-django-main/news/models.py:137-144 | The feedback table keeps one verdict per (user, article); writing one replaces that key only. |
| Models.Database.SetReactions | newsgenie-django-main/news/models.py:149-165 | Reactions are unique (comment, user, type) triples naming existing comments. |
| Scraper.CleanTextForSpeechShape | newsgenie-django-main/news/utils/scraper.py:29-36 | No text gives "". Otherwise the result holds only word characters, plain spaces and , . ! ? ' ". It has no space at either end, so no newline or tab survives. It keeps every visible character of the input, in order. |
| Scraper.CleanTextForSpeech | newsgenie-django-main/news/utils/scraper.py:29-36 | The cleaned text has no space at either end. |
| Scraper.ReplaceRunsFacts | newsgenie-django-main/news/utils/scraper.py:33-34 | Collapsing runs of line breaks, then of whitespace, into one space keeps every visible character and introduces nothing but spaces. |
| Scraper.RemoveDisallowedFacts | newsgenie-django-main/news/utils/scraper.py:35 | Dropping characters outside `[\w\s,.!?'"]` keeps every visible character and leaves only speech characters. |
| Scraper.StripFacts | newsgenie-django-main/news/utils/scraper.py:36 | Stripping keeps every visible character and the speech-only alphabet. |
| Scraper.CleanedEmptyIff | newsgenie-django-main/news/utils/scraper.py:151-154 | Cleaning a non-empty text leaves nothing exactly when the text has no visible character. |
| Scraper.GenerateAudioSummary | newsgenie-django-main/news/utils/scraper.py:145-167 | There is a URL exactly when the text is present, some of it survives cleaning, and synthesis succeeds. The URL is MEDIA_URL/news_audio/summary_<id>.mp3. |
| Scraper.AudioFileNameInjective | newsgenie-django-main/news/utils/scraper.py:157 | Two articles never share an audio file name. |
| PyStr.ParseNatToString | newsgenie-django-main/news/utils/scraper.py:157 | The decimal article id in `summary_<id>.mp3` reads back as that id. |
| Scraper.AudioUrlInjective | newsgenie-django-main/news/utils/scraper.py:157-164 | Two articles never share an audio URL. |
| Scraper.AudioNameRoundTrip | newsgenie-django-main/news/utils/scraper.py:254-257 | Removing the first MEDIA_URL from the audio URL gives the name the orchestrator stores, and serving that name under MEDIA_URL gives the URL back. |
| Scraper.LongTextsExactly | newsgenie-django-main/news/utils/scraper.py:90-93 | The kept blocks are exactly the texts longer than 40 characters, taken from the matches. |
| Scraper.LongTextsKept | newsgenie-django-main/news/utils/scraper.py:90-93 | Every kept block is one of the matches' texts and is longer than 40 characters. |
| Scraper.LongTextsComplete | newsgenie-django-main/news/utils/scraper.py:90-93 | Every text of the matches longer than 40 characters is kept. |
| Scraper.LongTexts | newsgenie-django-main/news/utils/scraper.py:90-93 | There are never more kept blocks than matches. |
| Scraper.KeepLongTexts | newsgenie-django-main/news/utils/scraper.py:90-93 | The inner loop appends exactly the texts longer than 40 characters, in order. |
| Scraper.ChosenBlocksIsFirstQualifying | newsgenie-django-main/news/utils/scraper.py:87-95 | The blocks come from the first selector, in the listed order, that has at least 3 matches and keeps a block. If no selector does, there are no blocks. |
| Scraper.ChosenBlocks | newsgenie-django-main/news/utils/scraper.py:87-95 | The blocks are none, or the long texts of one of the selectors searched. |
| Scraper.Threshold | newsgenie-django-main/news/utils/scraper.py:99 | The content is returned exactly when it is longer than 200 characters. |
| Scraper.FetchFullArticleContentFallback | newsgenie-django-main/news/utils/scraper.py:57-103 | A failed request gives None. Otherwise the result is the first 12 chosen blocks joined by a blank line and cleaned of tags, kept only when longer than 200 characters. |
| Scraper.RetryFromSettled | newsgenie-django-main/news/utils/scraper.py:124-144 | The retry loop in closed form from any attempt on. |
| Scraper.RetryFrom | newsgenie-django-main/news/utils/scraper.py:124-144 | From attempt k on there are at most 3 calls in all, and no more waits than calls made from k on. |
| Scraper.SummarizeSettled | newsgenie-django-main/news/utils/scraper.py:116-144 | Missing or short content gives "Summary not available." with no model call. Otherwise, let f be the first attempt that was not rate limited. There are f + 1 calls, at most 3. The waits are 15, 30, ... seconds, one per rate-limited attempt. The text is the first success, the "could not be generated" message or the rate-limit message. |
| Scraper.Summarize | newsgenie-django-main/news/utils/scraper.py:112-144 | At most 3 model calls, and no more waits than calls. |
| Scraper.SummarizeExhausted | newsgenie-django-main/news/utils/scraper.py:131-144 | Three rate limits give 3 calls, waits of 15, 30 and 45 seconds, and the rate-limit message. |
| Scraper.SummarizeNoFourthCall | newsgenie-django-main/news/utils/scraper.py:124 | A success that would come on a fourth attempt is never returned. |
| Scraper.GetSummaryFromGemini | newsgenie-django-main/news/utils/scraper.py:112-144 | The loop returns the text, the waits and the number of calls of the retry policy, with at most 3 calls. |
| Scraper.CategorySeedsDistinct | newsgenie-django-main/news/utils/scraper.py:171-184 | The twelve seeds have distinct keys and distinct names. |
| Scraper.SeedKeysAreLowerNames | newsgenie-django-main/news/utils/scraper.py:171-184 | Each seed key is its name in lower case. |
| Scraper.CreateCategories | newsgenie-django-main/news/utils/scraper.py:169-190 | The loop leaves the category table and the key map that seeding in order gives, or fails as soon as a get_or_create raises. |
| Scraper.SeedFromUnfold | newsgenie-django-main/news/utils/scraper.py:186-189 | One loop step of seeding: get_or_create the name, then record the key. |
| Scraper.SeedFromGrows | newsgenie-django-main/news/utils/scraper.py:186-189 | Seeding only appends rows, and only rows named after a seed. |
| Scraper.SeedFrom | newsgenie-django-main/news/utils/scraper.py:186-189 | Each seed adds at most one row to the category table, and none is removed. |
| Scraper.SeedFromFailsIff | newsgenie-django-main/news/utils/scraper.py:186-189 | Seeding fails exactly when the table already holds some seed name in two or more rows. |
| Scraper.SeedFromFailsAt | newsgenie-django-main/news/utils/scraper.py:186-189 | A seed name held by two or more rows makes seeding fail. |
| Scraper.SeedFromFailure | newsgenie-django-main/news/utils/scraper.py:186-189 | When seeding fails, it names a seed whose name was held by two or more rows. |
| Scraper.SeedFromStable | newsgenie-django-main/news/utils/scraper.py:186-189 | A table holding every seed name exactly once is left unchanged. |
| Scraper.SeedFromKeys | newsgenie-django-main/news/utils/scraper.py:189-190 | A successful seeding maps exactly the seed keys (plus the keys it started with). |
| Scraper.SeedFromCounts | newsgenie-django-main/news/utils/scraper.py:186-189 | After a successful seeding each seed name is held by exactly one row. |
| Scraper.SeedFromIds | newsgenie-django-main/news/utils/scraper.py:186-190 | After a successful seeding each key maps to the row holding its seed's name. |
| Scraper.SeedFromIdempotent | newsgenie-django-main/news/utils/scraper.py:186-190 | Seeding the table that a successful seeding left changes nothing and yields the same map. |
| Scraper.CreateCategoriesIdempotent | newsgenie-django-main/news/utils/scraper.py:169-190 | Running `create_categories` again after a successful run changes nothing. |
| Scraper.FeedsHaveSeededCategories | newsgenie-django-main/news/utils/scraper.py:192-205 | Feed f carries the name of seed f, whose key is that name in lower case, so a successful seeding has a category for every feed. |
| Scraper.RunOkStart | newsgenie-django-main/news/utils/scraper.py:212 | A run starts with nothing created, and its state satisfies the run invariant. |
| Scraper.RunOkExtend | newsgenie-django-main/news/utils/scraper.py:242-260 | Storing one more new article under a fresh id keeps the run invariant: old rows untouched, returned ids listed in order. |
| Scraper.NewRowsExtend | newsgenie-django-main/news/utils/scraper.py:242-260 | Storing one more new article keeps every new row a new article built from an entry. |
| Scraper.IngestPrerequisites | newsgenie-django-main/news/utils/scraper.py:228-230 | A link not stored now was not stored before the run, and every id listed so far is below the next id. |
| Scraper.EntryStepSkips | newsgenie-django-main/news/utils/scraper.py:228-237 | An entry whose link is stored already, or that has no title or less than 200 characters of extracted text, changes nothing and the feed goes on. |
| Scraper.EntryStepStores | newsgenie-django-main/news/utils/scraper.py:235-260 | An entry with a new link, a title and at least 200 characters of text is stored under the next id, and the feed goes on. |
| Scraper.AttachedRow | newsgenie-django-main/news/utils/scraper.py:242-260 | The created row has the entry's link as URL. With audio and a successful save it gets the audio name and is saved again; otherwise it stays as created. It is returned exactly when no audio was made or that save succeeded. |
| Scraper.StoredRowFields | newsgenie-django-main/news/utils/scraper.py:242-252 | The stored row is in the feed's category, and has the entry's link as URL, its cleaned title cut to 200 characters, its author or "Unknown", its publication time or now, and the feed's name as source. |
| Scraper.StoredRowBuilt | newsgenie-django-main/news/utils/scraper.py:226-260 | A stored row built from an entry reached among the first 7 of a feed has the next id, the entry's link, the category and the computed reading time, and is a new article built from that entry. |
| Scraper.EntryStepOk | newsgenie-django-main/news/utils/scraper.py:226-265 | One entry step keeps the run invariant: the store invariant, old rows untouched, returned ids new and increasing, every new row built from an entry. |
| Scraper.EntriesFromOk | newsgenie-django-main/news/utils/scraper.py:226-265 | The entry loop of a feed keeps the run invariant. |
| Scraper.FeedsFromOk | newsgenie-django-main/news/utils/scraper.py:215-270 | The feed loop keeps the run invariant. |
| Scraper.FeedsRunOk | newsgenie-django-main/news/utils/scraper.py:210-273 | A run over the feeds from a valid store ends in a valid store, with every old row untouched and every new row a new article built from an entry. |
| Scraper.EntryStepGrows | newsgenie-django-main/news/utils/scraper.py:228-260 | One entry step keeps every stored row, and the next id stays above every stored id. |
| Scraper.EntriesFromGrows | newsgenie-django-main/news/utils/scraper.py:226-265 | The entry loop of a feed keeps every stored row. |
| Scraper.RowsKeptTransitive | newsgenie-django-main/news/utils/scraper.py:226-270 | Rows kept by two successive steps are kept by both together. |
| Scraper.FeedsFromGrows | newsgenie-django-main/news/utils/scraper.py:215-270 | The feed loop keeps every stored row. |
| Scraper.UrlInKept | newsgenie-django-main/news/utils/scraper.py:228 | A URL stored before a step that keeps rows is still stored after it. |
| Scraper.EntryStepKeepsUrl | newsgenie-django-main/news/utils/scraper.py:228-252 | After the step of an entry with a new or stored link, a title and at least 200 characters of text, its link is stored. |
| Scraper.EntryAtEarlier | newsgenie-django-main/news/utils/scraper.py:226 | The entries looked at are a prefix of the feed, at most 7 long. |
| Scraper.EntriesFromStores | newsgenie-django-main/news/utils/scraper.py:226-265 | Within a feed, every entry with a title and at least 200 characters of text that comes before any entry without a link has its link stored when the loop ends, whatever happened to the entries around it. |
| Scraper.FeedsFromStores | newsgenie-django-main/news/utils/scraper.py:215-270 | Across feeds, such an entry of a feed whose category exists has its link stored at the end, whatever failed in other feeds. |
| Scraper.FetchArticlesComplete | newsgenie-django-main/news/utils/scraper.py:210-270 | After a successful seeding, every such entry among the first 7 of any of the 12 feeds has its link stored when `fetch_articles` ends. |
| Scraper.ProcessEntry | newsgenie-django-main/news/utils/scraper.py:227-265 | The body of the entry loop does exactly one entry step: an entry without a link ends the feed; a stored link, a missing title or a short text skips the entry; otherwise the entry is stored. The store invariant is kept. |
| Scraper.StoreEntry | newsgenie-django-main/news/utils/scraper.py:235-260 | The state becomes the stored state: one new row under the next id, in the feed's category, with the fields of its entry, and its id listed unless the audio save failed. |
| Scraper.CreateEntryArticle | newsgenie-django-main/news/utils/scraper.py:240-252 | `Article.objects.create` adds exactly the created row under the next id, and the summary is the retry policy's on the extracted text. |
| Scraper.AttachAudio | newsgenie-django-main/news/utils/scraper.py:254-260 | With audio, the row gets the `news_audio/summary_<id>.mp3` name and is saved. The article is dropped from the returned list exactly when that save fails. |
| Scraper.ProcessFeed | newsgenie-django-main/news/utils/scraper.py:223-265 | The inner loop leaves the state the entry fold gives: at most the first 7 entries, in order, up to the first without a link. |
| Scraper.ProcessFeeds | newsgenie-django-main/news/utils/scraper.py:215-270 | The outer loop leaves the state the feed fold gives: the feeds in order, a feed whose category key is missing skipped. |
| Scraper.FetchArticles | newsgenie-django-main/news/utils/scraper.py:210-273 | Seeding happens first, and a failure there escapes with no article stored. Otherwise the state is the feed fold over the 12 feeds, old rows are untouched, and every new row is a new article built from an entry. The returned ids are new, in processing order. |
| Models.ArticlesOkExtend | newsgenie-django-main/news/models.py:16-35 | Adding a row under the next id, with a URL no row has and its computed reading time, keeps the store invariant. |
| NewsViews.Toggle | newsgenie-django-main/news/views.py:310-317 | The pair is in the new set exactly when it was not in the old one; every other pair is unchanged. |
| NewsViews.ToggleInvolution | newsgenie-django-main/news/views.py:310-317 | Toggling twice restores the original set. |
| NewsViews.ToggleCount | newsgenie-django-main/news/views.py:318 | The article's like count rises by one on a like and falls by one on an unlike. |
| NewsViews.ToggleOtherArticles | newsgenie-django-main/news/views.py:331-338 | A toggle leaves the rows of every other article untouched. |
| NewsViews.ToggleKeepsPairs | newsgenie-django-main/news/models.py:75-76 | A toggle on an existing article keeps every row pointing at an existing article. |
| NewsViews.ToggleArticleLike | newsgenie-django-main/news/views.py:306-322 | A missing article gives not-found and no change. Otherwise the like is flipped, `is_liked` says it is now present, and the total is the count after the change. |
| NewsViews.ToggleArticleBookmark | newsgenie-django-main/news/views.py:327-342 | A missing article gives not-found and no change. Otherwise the bookmark is flipped, and `is_bookmarked` says it is now present. |
| NewsViews.ReplaceReaction | newsgenie-django-main/news/views.py:562-569 | Afterwards the user has exactly one reaction on the comment, of the requested type. Reactions of other users or on other comments are unchanged. |
| NewsViews.ReplaceReactionIdempotent | newsgenie-django-main/news/views.py:562-569 | Sending the same reaction again changes nothing; it is never toggled off. |
| NewsViews.ReplaceReactionKeepsRefs | newsgenie-django-main/news/views.py:562-569 | Replacing a reaction keeps every reaction pointing at an existing comment. |
| NewsViews.ToggleCommentReaction | newsgenie-django-main/news/views.py:549-594 | There are four failure cases: a missing comment is not-found, bad JSON is 400, a body that is not an object is 500, and an invalid type is 400. Each leaves the reactions unchanged. Otherwise the reaction is replaced and the four counts are reported. |
| NewsViews.UpsertMetricsFacts | newsgenie-django-main/news/views.py:356-365 | Only the (user, article) row changes. It takes the new time on page, and its scroll depth is the larger of the old and the new. A new row takes the values given. |
| NewsViews.UpsertMetrics | newsgenie-django-main/news/views.py:356-365 | After the upsert the (user, article) row exists, with the time on page given and a scroll depth at least the one given. |
| NewsViews.UpsertAllLastTimeMaxScroll | newsgenie-django-main/news/views.py:356-365 | After any series of reports the row holds the last time on page and the largest scroll depth reported. |
| NewsViews.StoreMetrics | newsgenie-django-main/news/views.py:356-365 | get_or_create then update stores the upsert. |
| NewsViews.TrackArticleMetrics | newsgenie-django-main/news/views.py:347-373 | Bad JSON gives 400. The metrics are updated exactly when the body is an object naming an existing article; otherwise nothing changes. Missing fields default to 0 and 0.0. Any other failure gives 500. |
| NewsViews.ArticleFeedback | newsgenie-django-main/news/views.py:522-542 | A missing article gives not-found and no change. Otherwise the verdict is stored: useful exactly when the field is "useful". The response reports "created" exactly when the user had no verdict before. |
| NewsViews.FeedbackLastWins | newsgenie-django-main/news/views.py:527-533 | After any series of submissions the last verdict wins, with one row per (user, article), and other rows untouched. |
| NewsViews.Candidates | newsgenie-django-main/news/views.py:484-488 | The candidates are exactly the FAQs whose keywords contain some user word, ignoring case, kept in table order. |
| NewsViews.ScoredFaqMatches | newsgenie-django-main/news/views.py:486-501 | An FAQ with a positive score always passes the substring prefilter. |
| NewsViews.ScoringWord | newsgenie-django-main/news/views.py:499-501 | A positive score comes from a user word equal to one of the keywords. |
| NewsViews.Score | newsgenie-django-main/news/views.py:497-501 | The score is the number of user words, repeats included, that equal a trimmed, lower-cased keyword. It never exceeds the word count. |
| NewsViews.KeywordList | newsgenie-django-main/news/views.py:497 | `keywords.split(',')` gives at least one keyword and at most one more than there are characters; every keyword is stripped of whitespace at both ends. |
| NewsViews.ScoreOf | newsgenie-django-main/news/views.py:498-501 | The score never exceeds the number of user words. |
| PyStr.SplitOnParts | newsgenie-django-main/news/views.py:497 | Every part of `keywords.split(',')` is a substring of the keywords, which is why a scoring keyword passes the prefilter. |
| NewsViews.FirstBestUnique | newsgenie-django-main/news/views.py:502-504 | At most one candidate is the first with the strictly highest score. |
| NewsViews.BestFaq | newsgenie-django-main/news/views.py:494-504 | The result is None exactly when every candidate scores 0. Otherwise it is the first candidate with the highest positive score, so earlier candidates win ties. |
| NewsViews.ChatbotResponse | newsgenie-django-main/news/views.py:470-513 | Bad JSON gives 400, and a body or message of the wrong type gives 500. A blank message gets the "didn't get that" answer, and no matching FAQ gets "don't have an answer". All-zero scores get "not sure"; otherwise the answer is the first best candidate's. |
| NewsViews.MessageText | newsgenie-django-main/news/views.py:474 | A missing message reads as "", and the message has no whitespace at either end. |
| NewsViews.ServeAudio | newsgenie-django-main/news/views.py:160-171 | Existing audio is served as it is. Otherwise, after generation, the stored name is the URL with its first MEDIA_URL removed; failure gives 500 and no change. |
| NewsViews.StoredAudioNameServesSameUrl | newsgenie-django-main/news/views.py:289-294 | The name stored after removing the first MEDIA_URL is the orchestrator's name, and serving it later gives back the URL returned now. |
| NewsViews.GenerateAudioView | newsgenie-django-main/news/views.py:284-301 | A missing article gives 404, and a missing or empty summary gives 400, both with no change. Existing audio is returned without regenerating it. Otherwise the audio is generated as ServeAudio says. |
| NewsViews.EnsureSummary | newsgenie-django-main/news/views.py:150-159 | An article without a summary gets one from the retry policy, and it is saved when non-empty. The step fails exactly when the summary is empty. |
| NewsViews.GenerateAudioApi | newsgenie-django-main/news/views.py:148-171 | A missing article gives 404. A missing summary is generated and saved first, and an empty one gives 500. Then existing audio is served, or new audio generated and its name stored. |
| UserViews.UpdateStreak | newsgenie-django-main/users/views.py:113-126 | The streak becomes NextStreak of the old streak and last login day, and the last login day becomes today. |
| UserViews.NextStreak | newsgenie-django-main/users/views.py:120-123 | The streak advances by one, stays, or restarts at 1; it never grows by more than one. |
| UserViews.NextStreakCases | newsgenie-django-main/users/views.py:120-123 | A login the day after the last one adds one. A second login on the same day keeps the streak. A first login, a gap or a future last date restarts it at 1. |
| UserViews.ConsecutiveLogins | newsgenie-django-main/users/views.py:115-125 | From a fresh profile, logins on k + 1 consecutive days end with a streak of k + 1. |
| UserViews.SameDayIdempotent | newsgenie-django-main/users/views.py:120-125 | A second login on the same day changes nothing. |
| UserViews.StreakBounded | newsgenie-django-main/users/views.py:120-125 | From a fresh profile, the streak never exceeds the number of logins. It is at least 1 once there was one, and the last login day is the last day. |

## Where the code and its comments differ

The model follows the code in each of these cases.

- `track_article_metrics` has a branch that answers 404 for a missing article. It is never reached: `get_object_or_404` raises `Http404`, which the generic handler turns into a 500.
- The comments in `toggle_comment_reaction` speak of toggling a reaction off when it is clicked again. The code deletes the user's reactions on the comment and then creates the requested one, so re-sending a reaction keeps it (NewsViews.ReplaceReactionIdempotent).
- Content made only of whitespace is non-empty, so `Article.save` charges it one minute although it has no words.
- In `chatbot_response`, only a JSON decoding error is caught. A body that is not an object, or a `message` that is not a string, raises, and the request ends in a 500.
- `get_summary_from_gemini` returns one of three fixed messages unless the model answers. So the audio API's "could not generate summary" 500 happens only when the model returns an empty text.
- An entry without a link does not just skip that entry. Reading `entry.link` raises, and the entry's error handler reads it again. The second exception leaves the entry loop, so the rest of that feed is skipped.

## Left out

- The network, `feedparser`, the newspaper extractor, `requests`, BeautifulSoup (`select`, `get_text`, `clean_html`), the Gemini client, gTTS and the file system are inputs of the model (`Env`, `select`, `cleanHtml`, `attempt`, `ttsOk`, `saveOk`), not behaviour.
- `time.sleep`: the retry waits are returned as a list of seconds. The two-second pause after each stored article, logging and `print` are not modelled.
- Unicode: character classes (`\s`, `\w`, `str.isspace`, `lower`) are the ASCII ones.
- Scroll depth is a `real` that is only compared; floating-point behaviour is not modelled.
- `published_parsed` is reduced to an optional timestamp, and `timezone.now()` is `Env.now`. Date arithmetic and time zones are left out, and the streak works on day numbers.
- `FieldFile.url` is modelled as MEDIA_URL followed by the stored name, without the storage backend's URL quoting.
- The FAQ prefilter's query result is taken in table order; the database's row order is not modelled.
- `get_or_create` and `update_or_create` are atomic in the model; races between concurrent requests are not modelled.
- `@login_required`, `@require_POST` and the unreachable 401 branch are not modelled: every view runs for a signed-in user.
- Views other than the ones above (article list, detail, summary view, word cloud, recommendations, history, preferences, auth and profile views), forms, URL routing and the management command are not part of this model.
- Profile fields other than the streak, and the `get_or_create` of the profile, are not modelled. A profile starts with streak 0 and no last login.
- Scraper.ProcessEntry: database errors other than the failing audio save (for instance an author too long for its column) are not modelled, so no other step of an entry can fail.
- Scraper.ProcessFeeds: takes the feed list as a parameter; Scraper.FetchArticles passes the twelve `RSS_FEEDS` entries, in their listed order.
- Scraper.FetchFullArticleContentFallback: an exception other than a failed request (in parsing or selection) is not modelled. The fallback is never called by `fetch_articles`, so it stands alone.
- NewsViews.TrackArticleMetrics: a field present with a JSON `null` value is read as absent.
- NewsViews.ToggleCommentReaction: a `reaction_type` that is not a string is read as missing, which gives the same 400.
