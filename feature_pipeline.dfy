/** The feature pipeline: turn the search API's payload into a table of
    tweets, one row per status in payload order, and upsert that table into
    the raw tweets feature group keyed by tweet id. */
module FeaturePipeline {
  import opened Wrappers
  import opened Json
  import opened CreatedAt
  import opened Frames
  import opened Store

  /** The group raw tweets are pushed to. */
  const RawGroup := Ident("nft_crypto_tweets_raw", 2)
  const TweetKey := ["tweet_id"]

  /** The columns of the table built from the four lists, in dictionary order. */
  const PostColumns := ["tweet_id", "tweet_date", "tweet_text", "tweet_username"]
  /** The columns of the finished table. */
  const TweetColumns := PostColumns + ["dummy_target"]

  /** What the pipeline keeps of one status. Identifier, text and user name
      are taken unchanged from the payload; the date is parsed. */
  datatype Post = Post(id: Json, createdAt: Timestamp, text: Json, username: Json)

  /** What `for record in payload["statuses"]` iterates over: the items of a
      list, the one-character strings of a string, the keys of an object
      (only an empty object yields nothing without raising, since indexing a
      key string with "id" raises); None where the lookup or the iteration raises. */
  function Statuses(payload: Json): (r: Option<seq<Json>>)
    ensures r.Some? <==>
              && payload.JObj? && "statuses" in payload.fields
              && (|| payload.fields["statuses"].JArr?
                  || payload.fields["statuses"].JStr?
                  || payload.fields["statuses"] == JObj(map[]))
    ensures r.Some? && payload.fields["statuses"].JArr? ==> r.value == payload.fields["statuses"].items
    ensures r.Some? && payload.fields["statuses"].JStr? ==>
              && |r.value| == |payload.fields["statuses"].s|
              && forall i :: 0 <= i < |r.value| ==> r.value[i] == JStr([payload.fields["statuses"].s[i]])
    ensures r.Some? && payload.fields["statuses"].JObj? ==> r.value == []
  {
    var statuses :- Lookup(payload, "statuses");
    match statuses
    case JArr(items) => Some(items)
    case JStr(s) => Some(seq(|s|, i requires 0 <= i < |s| => JStr([s[i]])))
    case JObj(fields) => if fields == map[] then Some([]) else None
    case _ => None
  }

  /** One iteration of the loop body: `record["id"]`,
      `strptime(record["created_at"], "%a %b %d %H:%M:%S %z %Y")`,
      `record["full_text"]` and `record["user"]["screen_name"]`; None where
      any of them raises. */
  function NormalizeRecord(record: Json): (r: Option<Post>)
    ensures r.Some? <==>
              && record.JObj?
              && "id" in record.fields && "full_text" in record.fields
              && "created_at" in record.fields && record.fields["created_at"].JStr?
              && Parse(record.fields["created_at"].s).Some?
              && "user" in record.fields && record.fields["user"].JObj?
              && "screen_name" in record.fields["user"].fields
    ensures r.Some? ==>
              && r.value.id == record.fields["id"]
              && Parse(record.fields["created_at"].s) == Some(r.value.createdAt)
              && r.value.text == record.fields["full_text"]
              && r.value.username == record.fields["user"].fields["screen_name"]
  {
    var id :- Lookup(record, "id");
    var createdAt :- Lookup(record, "created_at");
    var date :- if createdAt.JStr? then Parse(createdAt.s) else None;
    var text :- Lookup(record, "full_text");
    var user :- Lookup(record, "user");
    var username :- Lookup(user, "screen_name");
    Some(Post(id, date, text, username))
  }

  /** The loop of `transform_json_to_dataframe`: appends each record's four
      fields to four parallel lists; ok is false where some record raises,
      and then no lists are returned. */
  method CollectRecords(records: seq<Json>)
    returns (ok: bool, ids: seq<Json>, dates: seq<Timestamp>, texts: seq<Json>, names: seq<Json>)
    ensures ok <==> forall i :: 0 <= i < |records| ==> NormalizeRecord(records[i]).Some?
    ensures ok ==> |ids| == |dates| == |texts| == |names| == |records|
    ensures ok ==> forall i :: 0 <= i < |records| ==>
                     NormalizeRecord(records[i]) == Some(Post(ids[i], dates[i], texts[i], names[i]))
  {
    ids, dates, texts, names := [], [], [], [];
    var n := 0;
    while n < |records|
      invariant n <= |records|
      invariant |ids| == |dates| == |texts| == |names| == n
      invariant forall i :: 0 <= i < n ==>
                  NormalizeRecord(records[i]) == Some(Post(ids[i], dates[i], texts[i], names[i]))
    {
      var post := NormalizeRecord(records[n]);
      if post.None? {
        return false, [], [], [], [];
      }
      ids := ids + [post.value.id];
      dates := dates + [post.value.createdAt];
      texts := texts + [post.value.text];
      names := names + [post.value.username];
      n := n + 1;
    }
    ok := true;
  }

  /** The row `pd.DataFrame` builds from one position of the four lists. */
  function PostRow(p: Post): (r: Row)
    ensures r.Keys == Names(PostColumns)
    ensures r["tweet_id"] == JsonCell(p.id) && r["tweet_date"] == TimeCell(p.createdAt)
    ensures r["tweet_text"] == JsonCell(p.text) && r["tweet_username"] == JsonCell(p.username)
  {
    map["tweet_id" := JsonCell(p.id), "tweet_date" := TimeCell(p.createdAt),
        "tweet_text" := JsonCell(p.text), "tweet_username" := JsonCell(p.username)]
  }

  /** A row of the finished table for `p`: its four fields and a placeholder label. */
  predicate IsTweetRow(row: Row, p: Post) {
    && "dummy_target" in row && IsPlaceholder(row["dummy_target"])
    && row == PostRow(p)["dummy_target" := row["dummy_target"]]
  }

  /** Every record normalises. */
  predicate AllNormalize(records: seq<Json>) {
    forall i :: 0 <= i < |records| ==> NormalizeRecord(records[i]).Some?
  }

  /** `transform_json_to_dataframe`: None where the call raises. Otherwise a
      new table with the five columns and one row per status, in order, row
      i holding status i's fields and a placeholder `dummy_target`. */
  method TransformJsonToDataframe(payload: Json) returns (r: Option<Table>)
    ensures r.Some? <==> Statuses(payload).Some? && AllNormalize(Statuses(payload).value)
    ensures r.Some? ==> fresh(r.value) && r.value.Valid() && r.value.columns == TweetColumns
    ensures r.Some? ==> |r.value.rows| == |Statuses(payload).value|
    ensures r.Some? ==> forall i :: 0 <= i < |r.value.rows| ==>
              IsTweetRow(r.value.rows[i], NormalizeRecord(Statuses(payload).value[i]).value)
  {
    var statuses := Statuses(payload);
    if statuses.None? {
      return None;
    }
    var records := statuses.value;
    var ok, ids, dates, texts, names := CollectRecords(records);
    if !ok {
      return None;
    }
    var posts := seq(|records|, i requires 0 <= i < |records| => Post(ids[i], dates[i], texts[i], names[i]));
    var rows := seq(|records|, i requires 0 <= i < |records| => PostRow(posts[i]));
    assert Names(PostColumns) == {"tweet_id", "tweet_date", "tweet_text", "tweet_username"};
    var t := new Table(PostColumns, rows);
    var values := RandomPlaceholders(|rows|);
    t.SetColumn("dummy_target", values);
    assert t.columns == TweetColumns;
    r := Some(t);
  }

  /** `push_to_hopsworks_fs`: get or create the raw group keyed by
      `tweet_id`, then upsert the table into it; ok is false where the
      insert raises. */
  method PushToHopsworksFs(store: FeatureStore, tweets: Table) returns (ok: bool)
    requires store.Valid() && tweets.Valid()
    modifies store
    ensures store.Valid() && store.views == old(store.views)
    ensures store.groups == Pushed(old(store.groups), RawGroup, TweetKey, tweets.columns, tweets.rows)
    ensures ok <==> CanInsert(GroupOrNew(old(store.groups), RawGroup, TweetKey), tweets.columns)
  {
    store.GetOrCreateFeatureGroup(RawGroup, TweetKey);
    ok := store.Insert(RawGroup, tweets);
  }
}
