/** The row the pipeline produces (the `TemporalCommunityPosts` dataclass),
    the part of a topic's JSON body that the projection reads, and the
    projection itself. */
module Posts {
  import opened Wrappers

  /** Where a topic page lives: the URL is this prefix, the slug, a slash
      and the identifier. */
  const TopicUrlBase: string := "https://community.temporal.io/t/"

  /** One output row: title, page URL and view count. */
  datatype TemporalCommunityPosts = TemporalCommunityPosts(title: string, url: string, views: int)

  /** The keys of a topic body that the projection looks up. `None` is a key
      the body does not have, where `item[key]` raises `KeyError`; every other
      key of the body is irrelevant to the projection. */
  datatype RawRecord = RawRecord(slug: Option<string>, title: Option<string>, views: Option<int>)

  predicate HasRequiredKeys(rec: RawRecord) {
    rec.slug.Some? && rec.title.Some? && rec.views.Some?
  }

  /** The page URL of a topic, built from its slug and identifier. */
  function TopicUrl(slug: string, id: string): (url: string)
    ensures |url| == |TopicUrlBase| + |slug| + 1 + |id|
    ensures url[..|TopicUrlBase|] == TopicUrlBase
    ensures url[|TopicUrlBase|..|TopicUrlBase| + |slug|] == slug
    ensures url[|url| - |id|..] == id && url[|url| - |id| - 1] == '/'
  {
    TopicUrlBase + slug + "/" + id
  }

  /** The text after the last '/', or the whole text when there is none. */
  function LastSegment(s: string): string {
    if s == [] then []
    else if s[|s| - 1] == '/' then []
    else LastSegment(s[..|s| - 1]) + [s[|s| - 1]]
  }

  lemma {:induction false} LastSegmentOfJoin(prefix: string, id: string)
    requires '/' !in id
    ensures LastSegment(prefix + "/" + id) == id
  {
    if id != [] {
      var s := prefix + "/" + id;
      assert s[..|s| - 1] == prefix + "/" + id[..|id| - 1];
      LastSegmentOfJoin(prefix, id[..|id| - 1]);
    } else {
      assert prefix + "/" + id == prefix + "/";
    }
  }

  /** The identifier can be read back off the URL whenever it has no '/'
      (as is true of every identifier `story_ids` produces). */
  lemma TopicUrlNamesTopic(slug: string, id: string)
    requires '/' !in id
    ensures LastSegment(TopicUrl(slug, id)) == id
  {
    LastSegmentOfJoin(TopicUrlBase + slug, id);
  }

  /** The body of the `try` for one identifier: `None` when any of `slug`,
      `title` or `views` is missing (the `KeyError` branch), otherwise the row. */
  function Project(id: string, rec: RawRecord): (r: Option<TemporalCommunityPosts>)
    ensures r.Some? <==> HasRequiredKeys(rec)
    ensures r.Some? ==> r.value.title == rec.title.value && r.value.views == rec.views.value
                        && r.value.url == TopicUrl(rec.slug.value, id)
  {
    match (rec.slug, rec.title, rec.views)
    case (Some(slug), Some(title), Some(views)) =>
      Some(TemporalCommunityPosts(title, TopicUrl(slug, id), views))
    case _ => None
  }
}
