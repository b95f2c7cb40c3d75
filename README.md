# Temporal community top posts: the activities, modelled in Dafny

The repository runs a two-step data pipeline on the Temporal workflow engine.
The `story_ids` activity reads the latest-topics listing of the Temporal
community forum and returns the topic identifiers as strings. The
`top_stories` activity fetches each identifier's topic, builds a
`TemporalCommunityPosts(title, url, views)` row for each topic whose body has
`slug`, `title` and `views`, and skips the others. It then sorts the rows by
views, most viewed first, and returns the first ten.

This project models those two activities in `activities.py`. The HTTP calls
are inputs. For `story_ids` the input is the `latest.json` response: its
status and the part of the body that the projection reads. For `top_stories`
the input is a function from identifier to the decoded body of that topic's
page.

- `wrappers.dfy`: `Option` and `Result`.
- `decimal.dfy`: Python's `str` on an `int` (`DecimalString`), and a parser
  that reads it back, used to state what the rendering preserves.
- `posts.dfy`: the row datatype, the keys of a topic body that are read
  (`RawRecord`, with `None` for a missing key), the page URL, and the
  projection of one body (`Project`).
- `ranking.dfy`: the stable sort by views, largest first (`SortByViews`), and
  its properties. Also the top ten (`TopTen`), and the in-place sort
  (`SortInPlace`), which stands for `results.sort(...)`.
- `activities.py`'s two activities are in `activities.dfy`. `StoryIds` and
  `TopicIds` model `story_ids`. `TopStories` is the loop that appends to
  `results`, then the in-place sort and the slice. It is proved equal to
  `TopStoriesOf`, and the lemmas about `TopStoriesOf` and `Collect` state the
  activity's guarantees.

Two facts about the code shape the model. The rows are sorted by `views`,
largest first, and cut to ten (activities.py:55-56), so the result is not
in identifier order. The keys read from a topic body are `slug`, `title`
and `views` (activities.py:45-48).

## Model

| member | source | states |
|---|---|---|
| Decimal.Digits | activities.py:32 | the decimal digits of a natural number: at least one digit, all of them digits, no leading zero |
| Decimal.DecimalString | activities.py:32 | `str` of an identifier never contains a '/' |
| Decimal.DigitsRoundTrip | activities.py:32 | reading back the digits of `n` gives `n` |
| Decimal.DecimalRoundTrip | activities.py:32 | reading back `str(n)` gives `n`, for negative `n` as well |
| Decimal.DecimalInjective | activities.py:32 | distinct topic ids give distinct identifier strings |
| Posts.TopicUrl | activities.py:46 | the URL is the community `/t/` prefix, then the slug, then '/', then the identifier |
| Posts.TopicUrlNamesTopic | activities.py:46 | for an identifier without '/', the last path segment of the URL is that identifier |
| Posts.Project | activities.py:45-49 | a row exists exactly when `slug`, `title` and `views` are all present; its title and views are copied, and its URL is built from the slug and identifier |
| Ranking.Take | activities.py:56 | `results[:10]`: the first `min(10, n)` rows |
| Ranking.SortByViews | activities.py:55 | `results.sort(key=views, reverse=True)`: keeps the length; SortIsPermutation, SortIsOrdered, SortIsStable and StableSortIsUnique characterise it as the one stable descending sort by views |
| Ranking.SortIsPermutation | activities.py:55 | the sort returns the same rows, as a multiset |
| Ranking.SortIsOrdered | activities.py:55 | the sorted rows have non-increasing views |
| Ranking.SortIsStable | activities.py:55 | for every view count, the rows with that count keep their input order (Python's sort is stable under `reverse=True`) |
| Ranking.StableSortIsUnique | activities.py:55 | two orderings that are both descending by views and both keep ties in order are equal, so any stable sort gives `SortByViews` |
| Ranking.TopTen | activities.py:55-56 | sort then `[:10]`: at most ten rows; TopTenBounds, TopTenLeavesOutNoBetter and TopTenKeepsTies characterise it as the top-ten selection |
| Ranking.TopTenBounds | activities.py:55-56 | the top ten has `min(10, n)` rows, all taken from the input, ordered by views descending |
| Ranking.TopTenLeavesOutNoBetter | activities.py:55-56 | a row left out of the top ten has no more views than any row kept |
| Ranking.TopTenKeepsTies | activities.py:55-56 | among rows with equal views, the ones kept are the earliest appended |
| Ranking.InsertLast | activities.py:55 | one insertion step on the array: the prefix becomes the sorted insertion of the next row, and the rest is unchanged |
| Ranking.SortInPlace | activities.py:55 | `results.sort(key=views, reverse=True)` in place: the array ends as the stable descending sort of its old contents |
| Activities.TopicIds | activities.py:32 | one string per topic, in topic order, each `str(topic["id"])` and each reading back as that id; fails with `KeyError('id')` exactly when a topic lacks an id |
| Activities.StoryIds | activities.py:24-32 | a status other than 200 fails with that status before the body is read; with status 200 a missing `topic_list` or `topics` key fails with `KeyError` naming that key, and otherwise the result is that of `TopicIds` on the topics; it succeeds exactly when status is 200 and every topic has an id |
| Activities.Contribution | activities.py:40-54 | an identifier adds at most one row, and exactly one when its body has all three keys |
| Activities.Collect | activities.py:37-54 | the loop succeeds exactly when every body decodes to an object, and then yields no more rows than identifiers |
| Activities.FailureIsFinal | activities.py:39-44 | once a body fails to decode, the identifiers after it do not change the outcome |
| Activities.CollectAppend | activities.py:39-54 | identifiers are processed one after another, each on its own: the loop over `a + b` is the loop over `a`, then the loop over `b` |
| Activities.SkipsIncompleteRecord | activities.py:53-54 | an identifier whose body lacks `slug`, `title` or `views` adds nothing, and the rest is processed as if it were absent |
| Activities.KeepsCompleteRecord | activities.py:45-50 | an identifier whose body has all three keys adds exactly its row, in identifier order |
| Activities.AllCompleteKeepsAll | activities.py:39-50 | when every body has the three keys, there is one row per identifier |
| Activities.CollectProvenance | activities.py:45-50 | every row comes from an identifier whose body had the three keys; title and views are copied and the URL is built from the slug and that identifier |
| Activities.TopStoriesOf | activities.py:36-57 | the result of `top_stories`: fails exactly when the loop fails, and otherwise returns at most ten rows; TopStoriesBounds, TopStoriesFails and TopStoriesProvenance state the rest |
| Activities.TopStoriesBounds | activities.py:36-57 | the activity returns at most ten rows and no more than there were identifiers, by views descending |
| Activities.TopStoriesFails | activities.py:41-44 | when the first body that is not a JSON object belongs to identifier `ids[k]`, the activity fails naming `ids[k]` |
| Activities.TopStoriesProvenance | activities.py:45-56 | every returned row is the row of an input identifier whose body had the three keys |
| Activities.TopStoriesLeavesOutNoBetter | activities.py:55-56 | a valid row that is not returned has no more views than any returned row |
| Activities.UrlsNameListedTopics | activities.py:32-46 | when `top_stories` runs on the output of `story_ids`, the last path segment of every returned URL reads back as the id of a listed topic |
| Activities.TopStories | activities.py:36-57 | the loop, the in-place sort and the slice return exactly `TopStoriesOf`: the first ten of the stable descending sort of the valid rows, or the failure of the first body that does not decode |

## Left out

- Network I/O: the `aiohttp` sessions, the requests and `response.json()`. The model takes the decoded responses as inputs. The request URLs (`latest.json`, `/t/{id}.json`) are therefore not modelled.
- A `latest.json` body that is not valid JSON makes `story_ids` raise. The model has no such input.
- The status check inside `top_stories` only logs and runs after the row has been appended, so it has no effect on the result. The model has no status for topic pages.
- Logging through `activity.logger`, in the `KeyError` branch and in the status check.
- Field types: the model takes `slug` and `title` as text and `views` and topic `id` as integers, as the forum returns them. A body whose present field has another type cannot be represented. That also covers the sort raising on views that cannot be compared.
- The identifiers that `top_stories` accepts are typed `List[Any]`. The model takes strings, which is what `story_ids` produces.
- Exceptions other than `KeyError` in the loop are modelled only as a body that is not a JSON object, which ends the activity (`FetchFailed`). The exception's type and message are not modelled.
- Python's sort is Timsort. The model sorts by stable insertion. `StableSortIsUnique` shows that every stable descending sort gives the same result.
- Retry, backoff, timeouts, durable checkpoints and task queues (`your_workflow.py`, `run_worker.py`, `run_workflow.py`, `schedule_workflow.py`): these are Temporal SDK and server behaviour, configured but not implemented in these files. `TASK_QUEUE_NAME` is used only by them.
- The workflow that chains the two activities imports `post_ids` and `top_posts`, which `activities.py` does not define. It is not modelled. `UrlsNameListedTopics` states what holds when the two activities are chained.
