/** The two activities: `story_ids` lists the identifiers of the latest
    community topics, `top_stories` fetches each topic, keeps those whose body
    has `slug`, `title` and `views`, and returns the ten most viewed.
    The HTTP requests are inputs: the `latest.json` response for `story_ids`,
    and for `top_stories` a function from identifier to the decoded body of
    that topic's `.json` page. */
module Activities {
  import opened Wrappers
  import opened Decimal
  import opened Posts
  import opened Ranking

  /** The only status `story_ids` accepts. */
  const StatusOk: int := 200

  /** How an activity ends when it raises. */
  datatype ActivityError =
    | BadStatus(status: int)   // `story_ids`: "Failed to fetch top stories"
    | MissingKey(key: string)  // a `KeyError` outside any `try`
    | FetchFailed(id: string)  // `top_stories`: the body of topic `id` is no JSON object

  /** A topic of the listing; `id` is `None` when the key is absent. */
  datatype Topic = Topic(id: Option<int>)

  /** `topic_list` of the listing; `topics` is `None` when the key is absent. */
  datatype TopicList = TopicList(topics: Option<seq<Topic>>)

  /** The `latest.json` response: status and decoded body. */
  datatype LatestResponse = LatestResponse(status: int, topicList: Option<TopicList>)

  /** The decoded body of each topic page, by identifier; `None` when the
      body does not decode to a JSON object. */
  type Fetch = string -> Option<RawRecord>

  // ---- story_ids ---------------------------------------------------------------

  /** `[str(topic["id"]) for topic in topics]`: one string per topic, in
      topic order, each reading back as that topic's id; the first topic
      without an id raises `KeyError`. */
  function TopicIds(topics: seq<Topic>): (r: Result<seq<string>, ActivityError>)
    ensures r.Ok? <==> forall i :: 0 <= i < |topics| ==> topics[i].id.Some?
    ensures r.Err? ==> r.error == MissingKey("id")
    ensures r.Ok? ==> |r.value| == |topics|
    ensures r.Ok? ==> forall i :: 0 <= i < |topics| ==>
              r.value[i] == DecimalString(topics[i].id.value)
              && ParseDecimal(r.value[i]) == topics[i].id
              && '/' !in r.value[i]
  {
    if topics == [] then Ok([])
    else
      match topics[0].id
      case None => Err(MissingKey("id"))
      case Some(n) =>
        match TopicIds(topics[1..])
        case Err(e) => Err(e)
        case Ok(rest) =>
          DecimalRoundTrip(n);
          Ok([DecimalString(n)] + rest)
  }

  /** The `story_ids` activity: a status other than 200 raises before the
      body is read; otherwise the identifiers of `topic_list.topics`. */
  function StoryIds(resp: LatestResponse): (r: Result<seq<string>, ActivityError>)
    ensures resp.status != StatusOk ==> r == Err(BadStatus(resp.status))
    ensures r.Ok? <==> resp.status == StatusOk && resp.topicList.Some?
                        && resp.topicList.value.topics.Some?
                        && TopicIds(resp.topicList.value.topics.value).Ok?
    ensures resp.status == StatusOk && resp.topicList.None? ==> r == Err(MissingKey("topic_list"))
    ensures (resp.status == StatusOk && resp.topicList.Some? && resp.topicList.value.topics.None?)
              ==> r == Err(MissingKey("topics"))
    ensures (resp.status == StatusOk && resp.topicList.Some? && resp.topicList.value.topics.Some?)
              ==> r == TopicIds(resp.topicList.value.topics.value)
  {
    if resp.status != StatusOk then Err(BadStatus(resp.status))
    else
      match resp.topicList
      case None => Err(MissingKey("topic_list"))
      case Some(list) =>
        match list.topics
        case None => Err(MissingKey("topics"))
        case Some(topics) => TopicIds(topics)
  }

  // ---- top_stories ---------------------------------------------------------------

  /** What one identifier adds to `results`: its row, or nothing when the
      body lacks a key. */
  function Contribution(id: string, rec: RawRecord): (r: seq<TemporalCommunityPosts>)
    ensures |r| <= 1
    ensures |r| == 1 <==> HasRequiredKeys(rec)
  {
    match Project(id, rec)
    case Some(post) => [post]
    case None => []
  }

  /** `results` after the loop has run over `ids`: the rows of the
      identifiers whose bodies have all three keys, in identifier order; the
      activity ends at the first body that is no JSON object. */
  function Collect(ids: seq<string>, fetch: Fetch): (r: Result<seq<TemporalCommunityPosts>, ActivityError>)
    ensures r.Ok? <==> forall i :: 0 <= i < |ids| ==> fetch(ids[i]).Some?
    ensures r.Ok? ==> |r.value| <= |ids|
  {
    if ids == [] then Ok([])
    else
      var id := ids[|ids| - 1];
      match Collect(ids[..|ids| - 1], fetch)
      case Err(e) => Err(e)
      case Ok(posts) =>
        match fetch(id)
        case None => Err(FetchFailed(id))
        case Some(rec) => Ok(posts + Contribution(id, rec))
  }

  /** The result of the `top_stories` activity, as a value. */
  function TopStoriesOf(ids: seq<string>, fetch: Fetch): (r: Result<seq<TemporalCommunityPosts>, ActivityError>)
    ensures r.Ok? <==> Collect(ids, fetch).Ok?
    ensures r.Ok? ==> |r.value| <= TopCount
  {
    match Collect(ids, fetch)
    case Err(e) => Err(e)
    case Ok(posts) => Ok(TopTen(posts))
  }

  /** Once the activity has failed on a prefix of the identifiers, the rest
      of them does not matter. */
  lemma {:induction false} FailureIsFinal(ids: seq<string>, fetch: Fetch, k: nat)
    requires k <= |ids| && Collect(ids[..k], fetch).Err?
    ensures Collect(ids, fetch) == Collect(ids[..k], fetch)
  {
    if k < |ids| {
      var init := ids[..|ids| - 1];
      assert init[..k] == ids[..k];
      FailureIsFinal(init, fetch, k);
    } else {
      assert ids[..k] == ids;
    }
  }

  // ---- what the loop keeps ---------------------------------------------------------

  /** Processing `a` then `b` is processing `a + b`: identifiers are handled
      one after another, each on its own. */
  lemma {:induction false} CollectAppend(a: seq<string>, b: seq<string>, fetch: Fetch)
    ensures Collect(a + b, fetch) ==
      match Collect(a, fetch)
      case Err(e) => Err(e)
      case Ok(p) =>
        match Collect(b, fetch)
        case Err(e) => Err(e)
        case Ok(q) => Ok(p + q)
  {
    if b == [] {
      assert a + b == a;
      match Collect(a, fetch)
      case Err(_) =>
      case Ok(p) => assert p + [] == p;
    } else {
      var ab := a + b;
      assert ab[..|ab| - 1] == a + b[..|b| - 1];
      CollectAppend(a, b[..|b| - 1], fetch);
      match Collect(a, fetch)
      case Err(_) =>
      case Ok(p) =>
        match Collect(b[..|b| - 1], fetch)
        case Err(_) =>
        case Ok(q) =>
          match fetch(b[|b| - 1])
          case None =>
          case Some(rec) =>
            assert p + q + Contribution(b[|b| - 1], rec) == p + (q + Contribution(b[|b| - 1], rec));
    }
  }

  lemma CollectOne(id: string, fetch: Fetch)
    requires fetch(id).Some?
    ensures Collect([id], fetch) == Ok(Contribution(id, fetch(id).value))
  {
    assert [id][..0] == [];
    assert Collect([], fetch) == Ok([]);
    assert [] + Contribution(id, fetch(id).value) == Contribution(id, fetch(id).value);
  }

  /** Fault isolation: an identifier whose body lacks `slug`, `title` or
      `views` adds nothing, and the identifiers after it are processed as if
      it had not been there. */
  lemma SkipsIncompleteRecord(before: seq<string>, id: string, after: seq<string>, fetch: Fetch)
    requires fetch(id).Some? && !HasRequiredKeys(fetch(id).value)
    ensures Collect(before + [id] + after, fetch) == Collect(before + after, fetch)
  {
    CollectOne(id, fetch);
    CollectAppend(before, [id], fetch);
    CollectAppend(before + [id], after, fetch);
    CollectAppend(before, after, fetch);
    match Collect(before, fetch)
    case Err(_) =>
    case Ok(p) =>
      assert p + [] == p;
  }

  /** An identifier whose body has all three keys adds exactly its row, at
      its place in identifier order. */
  lemma KeepsCompleteRecord(before: seq<string>, id: string, after: seq<string>, fetch: Fetch)
    requires fetch(id).Some? && HasRequiredKeys(fetch(id).value)
    requires Collect(before, fetch).Ok? && Collect(after, fetch).Ok?
    ensures var rec := fetch(id).value;
      Collect(before + [id] + after, fetch) == Ok(Collect(before, fetch).value
        + [TemporalCommunityPosts(rec.title.value, TopicUrl(rec.slug.value, id), rec.views.value)]
        + Collect(after, fetch).value)
  {
    var rec := fetch(id).value;
    var row := TemporalCommunityPosts(rec.title.value, TopicUrl(rec.slug.value, id), rec.views.value);
    CollectOne(id, fetch);
    assert Contribution(id, rec) == [row];
    var pb := Collect(before, fetch).value;
    var pa := Collect(after, fetch).value;
    CollectAppend(before, [id], fetch);
    assert Collect(before + [id], fetch) == Ok(pb + [row]);
    CollectAppend(before + [id], after, fetch);
    assert Collect(before + [id] + after, fetch) == Ok(pb + [row] + pa);
  }

  /** When every body has all three keys, every identifier yields a row. */
  lemma {:induction false} AllCompleteKeepsAll(ids: seq<string>, fetch: Fetch)
    requires forall i :: 0 <= i < |ids| ==> fetch(ids[i]).Some? && HasRequiredKeys(fetch(ids[i]).value)
    ensures Collect(ids, fetch).Ok? && |Collect(ids, fetch).value| == |ids|
  {
    if ids != [] {
      AllCompleteKeepsAll(ids[..|ids| - 1], fetch);
    }
  }

  /** Provenance: every row comes from an identifier whose body had the
      three keys; title and views are copied, the URL is built from the slug
      and that identifier. */
  lemma {:induction false} CollectProvenance(ids: seq<string>, fetch: Fetch, post: TemporalCommunityPosts)
    requires Collect(ids, fetch).Ok? && post in Collect(ids, fetch).value
    ensures exists i :: 0 <= i < |ids| && fetch(ids[i]).Some? && HasRequiredKeys(fetch(ids[i]).value)
              && post == TemporalCommunityPosts(fetch(ids[i]).value.title.value,
                   TopicUrl(fetch(ids[i]).value.slug.value, ids[i]), fetch(ids[i]).value.views.value)
  {
    var init := ids[..|ids| - 1];
    var id := ids[|ids| - 1];
    var rec := fetch(id).value;
    var posts := Collect(init, fetch).value;
    if post in posts {
      CollectProvenance(init, fetch, post);
      var i :| 0 <= i < |init| && fetch(init[i]).Some? && HasRequiredKeys(fetch(init[i]).value)
              && post == TemporalCommunityPosts(fetch(init[i]).value.title.value,
                   TopicUrl(fetch(init[i]).value.slug.value, init[i]), fetch(init[i]).value.views.value);
      assert ids[i] == init[i];
    } else {
      assert post in Contribution(id, rec);
      assert ids[|ids| - 1] == id;
    }
  }

  // ---- what the activity returns --------------------------------------------------

  /** At most ten rows, at most one per identifier, by views descending. */
  lemma TopStoriesBounds(ids: seq<string>, fetch: Fetch)
    requires TopStoriesOf(ids, fetch).Ok?
    ensures |TopStoriesOf(ids, fetch).value| <= TopCount
    ensures |TopStoriesOf(ids, fetch).value| <= |ids|
    ensures ByViewsDescending(TopStoriesOf(ids, fetch).value)
  {
    TopTenBounds(Collect(ids, fetch).value);
  }

  /** The activity fails exactly when some body is no JSON object, and then
      with the first such identifier. */
  lemma {:induction false} TopStoriesFails(ids: seq<string>, fetch: Fetch, k: nat)
    requires k < |ids| && fetch(ids[k]).None?
    requires forall i :: 0 <= i < k ==> fetch(ids[i]).Some?
    ensures TopStoriesOf(ids, fetch) == Err(FetchFailed(ids[k]))
  {
    var pre := ids[..k + 1];
    assert pre[..k] == ids[..k];
    assert Collect(ids[..k], fetch).Ok?;
    assert Collect(pre, fetch) == Err(FetchFailed(ids[k]));
    FailureIsFinal(ids, fetch, k + 1);
  }

  /** Every returned row is the row of some identifier whose body had all
      three keys. */
  lemma TopStoriesProvenance(ids: seq<string>, fetch: Fetch, post: TemporalCommunityPosts)
    requires TopStoriesOf(ids, fetch).Ok? && post in TopStoriesOf(ids, fetch).value
    ensures exists i :: 0 <= i < |ids| && fetch(ids[i]).Some? && HasRequiredKeys(fetch(ids[i]).value)
              && post == TemporalCommunityPosts(fetch(ids[i]).value.title.value,
                   TopicUrl(fetch(ids[i]).value.slug.value, ids[i]), fetch(ids[i]).value.views.value)
  {
    var posts := Collect(ids, fetch).value;
    TopTenBounds(posts);
    assert post in multiset(TopTen(posts));
    CollectProvenance(ids, fetch, post);
  }

  /** Top ten: a valid row that is left out has no more views than any row
      returned. */
  lemma TopStoriesLeavesOutNoBetter(ids: seq<string>, fetch: Fetch, left: TemporalCommunityPosts, kept: TemporalCommunityPosts)
    requires Collect(ids, fetch).Ok?
    requires left in multiset(Collect(ids, fetch).value) - multiset(TopStoriesOf(ids, fetch).value)
    requires kept in TopStoriesOf(ids, fetch).value
    ensures left.views <= kept.views
  {
    TopTenLeavesOutNoBetter(Collect(ids, fetch).value, left, kept);
  }

  /** The hand-off between the two activities: the last path segment of each
      returned URL reads back as the id of a listed topic. */
  lemma UrlsNameListedTopics(resp: LatestResponse, fetch: Fetch, post: TemporalCommunityPosts)
    requires StoryIds(resp).Ok?
    requires TopStoriesOf(StoryIds(resp).value, fetch).Ok?
    requires post in TopStoriesOf(StoryIds(resp).value, fetch).value
    ensures exists t :: t in resp.topicList.value.topics.value
              && t.id.Some? && ParseDecimal(LastSegment(post.url)) == t.id
  {
    var ids := StoryIds(resp).value;
    var topics := resp.topicList.value.topics.value;
    TopStoriesProvenance(ids, fetch, post);
    var i :| 0 <= i < |ids| && fetch(ids[i]).Some? && HasRequiredKeys(fetch(ids[i]).value)
              && post == TemporalCommunityPosts(fetch(ids[i]).value.title.value,
                   TopicUrl(fetch(ids[i]).value.slug.value, ids[i]), fetch(ids[i]).value.views.value);
    TopicUrlNamesTopic(fetch(ids[i]).value.slug.value, ids[i]);
    assert topics[i] in topics;
  }

  /** The `top_stories` activity: the loop appends the row of every
      identifier whose body has `slug`, `title` and `views` and skips the
      others (the `KeyError` branch); then the rows are sorted in place by
      views, largest first, and the first ten returned. */
  method TopStories(ids: seq<string>, fetch: Fetch) returns (r: Result<seq<TemporalCommunityPosts>, ActivityError>)
    ensures r == TopStoriesOf(ids, fetch)
  {
    var results: seq<TemporalCommunityPosts> := [];
    for i := 0 to |ids|
      invariant Collect(ids[..i], fetch) == Ok(results)
    {
      var itemId := ids[i];
      assert ids[..i + 1][..i] == ids[..i];
      match fetch(itemId) {
        case None =>
          FailureIsFinal(ids, fetch, i + 1);
          return Err(FetchFailed(itemId));
        case Some(item) =>
          assert Collect(ids[..i + 1], fetch) == Ok(results + Contribution(itemId, item));
          match Project(itemId, item) {
            case Some(post) =>
              results := results + [post];
            case None =>
              assert results + Contribution(itemId, item) == results;
          }
      }
    }
    assert ids[..|ids|] == ids;
    var a := new TemporalCommunityPosts[|results|](k requires 0 <= k < |results| => results[k]);
    assert a[..] == results;
    SortInPlace(a);
    var n := if a.Length < TopCount then a.Length else TopCount;
    r := Ok(a[..n]);
  }
}
