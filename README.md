# NFT/crypto tweet sentiment pipeline: a verified model

This project models the local logic of the two batch jobs of a tweet sentiment pipeline.

The **feature pipeline** does two things:

- It turns the search API's JSON payload into a table of tweets. There is one row per entry of `statuses`, in payload order. The columns are `tweet_id`, `tweet_date` (the parsed `created_at`), `tweet_text`, `tweet_username` and a placeholder `dummy_target` in [0, 100).
- It upserts that table into the feature group `nft_crypto_tweets_raw`, version 2, keyed by `tweet_id`.

The **sentiment job** does three things:

- It reads the raw tweets back through the feature view `nft_crypto_tweets_raw_view`, version 2. If that view cannot be read, it creates the view over a select-all query of the raw group, labelled by `dummy_target`.
- It adds each tweet's top-ranked sentiment label and score as the columns `sentiment` and `sentiment_score`.
- It redraws `dummy_target` and upserts the table into `nft_crypto_tweets_sentiment_predictions`, version 1, keyed by `tweet_id`.

The model is written in Dafny, in these modules:

- `Wrappers` (`wrappers.dfy`): the `Option` type. A Python exception becomes `None` or `false`.
- `Json` (`json.dfy`): decoded JSON values, and Python's `value[key]` on them.
- `CreatedAt` (`created_at.dfy`): a parser and a printer for the fixed `created_at` format `"%a %b %d %H:%M:%S %z %Y"`, for example `Wed Oct 10 20:19:24 +0000 2018`. Round-trip lemmas are proved in both directions.
- `Frames` (`frames.dfy`): the pandas DataFrame as a `Table` object with named columns over rows of cells. `SetColumn` models `df[name] = values`, which overwrites or appends a column in place. `RandomPlaceholders` models `np.random.randint(0, 100, size=n)` as a nondeterministic choice.
- `Store` (`feature_store.dfy`): a fake feature store, a class holding feature groups and feature views by `(name, version)`.
  - A group has a primary key and a schema, which the first insert fixes.
  - A group stores its rows by primary key. Insert is an upsert: each row in turn replaces the row stored under its key.
  - The lemmas prove three things: the upsert equals "stored rows overridden by the batch's last row per key"; the upsert is idempotent; and keys the batch does not write are untouched.
- `FeaturePipeline` (`feature_pipeline.dfy`): `transform_json_to_dataframe` as a loop over the statuses that fills four parallel lists, and `push_to_hopsworks_fs`.
- `SentimentPredictions` (`build_sentiment_predictions.dfy`): `fetch_raw_data_from_hopsworks_fs`, `extract_sentiment` and `push_predictions_fg`.

The classifier is a parameter: a deterministic function from a cell to a ranked list of (label, score) entries. Each random placeholder draw is a nondeterministic choice. Network, login and file output are not modelled.

The model does not promise a label in {POSITIVE, NEGATIVE, NEUTRAL} or a score in [0, 1]. The code reads the label and score of the first entry and checks neither. An empty classifier answer raises an `IndexError`, which is modelled as a failure of the whole call.

## Model

| member | source | states |
|---|---|---|
| Json.Lookup | src/feature_pipeline.py:50 | `value[key]` succeeds exactly on an object holding the key, and yields the value stored there |
| CreatedAt.MonthNumber | src/feature_pipeline.py:52 | `%b`: a three-letter English month abbreviation in its usual case yields its number n, and the n-th abbreviation is that string; every other string is rejected |
| CreatedAt.Parse | src/feature_pipeline.py:51-53 | every timestamp `strptime` accepts here is a valid date and time: day within its month (leap years included), hour < 24, minute and second < 60, year 1..9999, UTC offset under one day; the string has the fixed shape |
| CreatedAt.ParseFormat | src/feature_pipeline.py:51-53 | parsing the canonical rendering of any valid timestamp, with any weekday name, gives that timestamp back |
| CreatedAt.ParseRender | src/feature_pipeline.py:51-53 | every valid timestamp rendered with any weekday name and the sign of its offset, or `-` for a zero offset, parses back to itself; with FormatParse, an exact description of the accepted texts |
| CreatedAt.FormatParse | src/feature_pipeline.py:51-53 | every string that parses is exactly the canonical rendering of the parsed timestamp, with its own weekday and offset sign; a non-zero offset carries the sign of the parsed offset |
| CreatedAt.Value4OfPad4 | src/feature_pipeline.py:52 | reading back a zero-padded four-digit year gives the number written |
| CreatedAt.Pad4OfValue4 | src/feature_pipeline.py:52 | a four-digit field is the zero-padded rendering of the number it reads as |
| Frames.AddName | src/feature_pipeline.py:66 | `df[name] =` keeps every existing column in place, adds `name` if new, and keeps the names distinct |
| Frames.WithColumn | src/feature_pipeline.py:66 | `df[name] = values` on the rows: row i gets `values[i]` in column `name`, every other cell unchanged |
| Frames.WithColumnConforms | src/build_sentiment_predictions.py:71-73 | assigning a column to rows with exactly the table's columns gives rows with exactly the new column list |
| Frames.Table.constructor | src/feature_pipeline.py:57-64 | `pd.DataFrame(...)` from distinct columns and rows with exactly those columns is a valid table holding them |
| Frames.Table.SetColumn | src/build_sentiment_predictions.py:71-73 | assigning a column keeps the table valid, sets that column of row i to value i and leaves every other cell as it was |
| Frames.RandomPlaceholders | src/feature_pipeline.py:66 | `np.random.randint(0, 100, size=n)` gives n integers, each in [0, 100) |
| Store.Upsert | src/feature_pipeline.py:89 | the row-by-row upsert keeps every stored key and stores something under every key of the batch |
| Store.UpsertOverrides | src/feature_pipeline.py:89 | upserting a batch row by row equals the stored rows overridden by the batch's last row per key |
| Store.LatestKeys | src/feature_pipeline.py:89 | the batch writes exactly the keys of its rows |
| Store.LatestFromBatch | src/feature_pipeline.py:89 | every row the upsert keeps comes from the batch and is stored under its own key |
| Store.LatestLastWins | src/feature_pipeline.py:89 | last write wins: a row that no later row shares a key with is the one kept under its key |
| Store.UpsertIdempotent | src/feature_pipeline.py:89 | upserting the same batch twice stores what upserting it once does |
| Store.UpsertElsewhere | src/feature_pipeline.py:89 | keys the batch does not write are neither added nor changed |
| Store.UpsertStoresBatch | src/feature_pipeline.py:89 | after the upsert, the stored keys are the old keys plus the batch's keys, and each key holds the batch's last row with that key |
| Store.InsertedWellFormed | src/feature_pipeline.py:89 | an allowed insert keeps the group well formed: each row has exactly the schema's columns and is stored under its own key |
| Store.InsertIdempotent | src/build_sentiment_predictions.py:81-83 | a table whose insert is allowed can be inserted again, and the second insert leaves the group as the first left it |
| Store.GroupOrNew | src/feature_pipeline.py:83-88 | get-or-create yields the stored group when there is one, and otherwise a well-formed empty group with the given primary key and no schema yet |
| Store.Inserted | src/feature_pipeline.py:89 | an allowed insert keeps the primary key, fixes the schema if it was not yet fixed and keeps it otherwise, and stores the old rows overridden by the table's last row per key |
| Store.Pushed | src/feature_pipeline.py:83-89 | get-or-create plus insert: the group exists afterwards, no other group changes, and the group holds the table's rows when the insert is allowed and is left as got or created otherwise |
| Store.PushIdempotent | src/feature_pipeline.py:83-89 | get-or-create plus upsert of the same table twice leaves the store as one push, and no other group is added, removed or changed |
| Store.PushStoresByKey | src/feature_pipeline.py:83-89 | after an allowed push, each table row that no later row shares a key with is stored in the group under its primary-key value |
| Store.PushKeepsOtherKeys | src/build_sentiment_predictions.py:75-83 | a push leaves every stored row whose key the table does not write exactly as it was |
| Store.LatestRedrawn | src/build_sentiment_predictions.py:71-83 | redrawing a non-key column of a batch keeps the keys of its latest rows, and each latest row changes at most in that column |
| Store.UpsertRedrawn | src/build_sentiment_predictions.py:71-83 | upserting a table and then the same table with a non-key column redrawn keeps the keys of the first upsert, and each stored row changes at most in that column |
| Store.PushRedrawn | src/build_sentiment_predictions.py:71-83 | pushing a table and then the same table with a non-key column redrawn: the second push is allowed, no other group changes, the group keeps its keys, and each row changes at most in that column |
| Store.Enumerate | src/build_sentiment_predictions.py:25 | lists every stored row exactly once, in some order |
| Store.FeatureStore.GetOrCreateFeatureGroup | src/feature_pipeline.py:83-88 | an existing group under `(name, version)` is kept unchanged, otherwise an empty group with the given primary key is created; views are untouched |
| Store.FeatureStore.Insert | src/feature_pipeline.py:89 | the insert succeeds exactly when the group exists, the table holds the primary-key columns and matches a schema already fixed; it then upserts the table's rows, and leaves the store unchanged otherwise |
| Store.FeatureStore.GetFeatureView | src/build_sentiment_predictions.py:24 | succeeds exactly when the view exists, and yields it |
| Store.FeatureStore.SelectAllOf | src/build_sentiment_predictions.py:27-28 | succeeds exactly when the group exists, and yields a select-all query of it |
| Store.FeatureStore.CreateFeatureView | src/build_sentiment_predictions.py:29-35 | fails exactly when the view already exists, leaving the store unchanged; otherwise adds the view with the given query and labels and changes no group |
| Store.FeatureStore.GetBatchData | src/build_sentiment_predictions.py:25 | succeeds exactly when the view's group exists, and yields a new table with the group's columns holding each stored row once |
| FeaturePipeline.Statuses | src/feature_pipeline.py:49 | `json_obj["statuses"]` must exist and be iterable: a list gives its items in order, a string one entry per character, an empty object nothing; anything else fails |
| FeaturePipeline.NormalizeRecord | src/feature_pipeline.py:50-55 | a record normalises exactly when it is an object with `id`, `full_text`, a string `created_at` that parses, and a `user` object with `screen_name`; the post holds those values and the parsed date |
| FeaturePipeline.PostRow | src/feature_pipeline.py:57-64 | the row built from one position of the four lists has exactly the four tweet columns, holding the post's id, date, text and user name |
| FeaturePipeline.CollectRecords | src/feature_pipeline.py:44-55 | the loop succeeds exactly when every record normalises; the four lists then have one entry per record, and position i holds record i's id, date, text and user name |
| FeaturePipeline.TransformJsonToDataframe | src/feature_pipeline.py:27-70 | fails exactly when `statuses` cannot be iterated or some record fails, with no partial table; otherwise a new table with the five columns and one row per status in order, row i holding status i's fields and a `dummy_target` in [0, 100) |
| FeaturePipeline.PushToHopsworksFs | src/feature_pipeline.py:73-89 | the store afterwards is the raw group got or created with key `tweet_id` and the table upserted into it; the push succeeds exactly when the insert is allowed; views are untouched |
| SentimentPredictions.FetchRawData | src/build_sentiment_predictions.py:9-38 | a readable raw view yields its group's batch data and creates nothing; otherwise, when the view is absent and the raw group exists, the view is created over a select-all of the raw group labelled `dummy_target` and its data is returned; otherwise it fails and changes nothing; after a success the view is readable, so a second fetch takes the first branch; groups never change |
| SentimentPredictions.TopPredictions | src/build_sentiment_predictions.py:50-55 | the applies succeed exactly when every text's answer is non-empty; entry i is then the top-ranked entry of text i's answer |
| SentimentPredictions.Column | src/build_sentiment_predictions.py:50 | `df["tweet_text"]`: one cell per row, in order, each that row's cell in the column |
| SentimentPredictions.Labels | src/build_sentiment_predictions.py:50-52 | `[0]["label"]` of each top entry, in order, as the `sentiment` column |
| SentimentPredictions.Scores | src/build_sentiment_predictions.py:53-55 | `[0]["score"]` of each top entry, in order, as the `sentiment_score` column |
| SentimentPredictions.ScoredRows | src/build_sentiment_predictions.py:50-55 | after both assignments, each row has exactly its old columns plus `sentiment` and `sentiment_score`, set from its prediction; every other cell is unchanged |
| SentimentPredictions.ExtractSentiment | src/build_sentiment_predictions.py:41-57 | fails, leaving the table as it was, exactly when there is no `tweet_text` column or some answer is empty; otherwise it returns the same table, with the same rows, every old column unchanged, and `sentiment` and `sentiment_score` from the top-ranked entry |
| SentimentPredictions.RepushPredictions | src/build_sentiment_predictions.py:71-83 | pushing predictions twice, with `dummy_target` drawn afresh each time: the second insert is allowed, no other group changes, the predictions group keeps its keys, and each stored row changes at most in `dummy_target` |
| SentimentPredictions.PushPredictions | src/build_sentiment_predictions.py:60-83 | every row's `dummy_target` is replaced by an integer in [0, 100) and nothing else in the table changes; the store afterwards is the predictions group got or created with key `tweet_id` and the table upserted into it |

## Left out

- `get_response` (src/feature_pipeline.py:11-24) is not modelled: it is an HTTP request. The payload is a parameter of `TransformJsonToDataframe`.
- These are configuration and foreign calls, so they are not modelled:
  - loading environment variables and secrets;
  - `hopsworks.login` and `get_feature_store`;
  - both `__main__` blocks.

  The store is a parameter instead.
- SentimentPredictions.PushPredictions: re-pushing is idempotent only up to `dummy_target`. Every call draws that column afresh, so a second push can change it in every stored row. It leaves the keys and every other cell as the first push left them (`RepushPredictions`).
- The parquet snapshot (src/feature_pipeline.py:127) and every `print` are not modelled: they are output only.
- The HuggingFace model is not modelled beyond a deterministic function parameter. Its scores are floats from Python, modelled as `real`; no range is promised, and the code checks none.
- `np.random.randint` is not modelled as a particular random source: each draw is an unconstrained choice in [0, 100).
- CreatedAt.Parse: not every string `strptime` accepts for this format is accepted here. Parse takes only the canonical 30-character shape with English abbreviations in their usual case, two-digit fields, a four-digit year and a `+HHMM`/`-HHMM` offset. It leaves out `strptime`'s leniency:
  - day and month abbreviations in any letter case (`%a` and `%b` match the locale's abbreviated names only);
  - non-ASCII decimal digits, which `\d` also matches;
  - one-digit fields;
  - `Z`, colon and seconds forms of the offset;
  - runs of whitespace.

  Like `strptime`, it does not check the weekday against the date.
- CreatedAt.MonthNumber: `%b` matches month abbreviations in any letter case (`oct`, `OCT`), but the model accepts only the usual case (`Oct`).
- FeaturePipeline.Statuses: iterating a non-empty object yields its key strings, and indexing one of them with `"id"` raises. The model reports that failure directly, without listing the keys, because a map's key order is not modelled.
- JSON numbers are integers only: the fields the pipeline reads are identifiers and strings, and are kept as opaque JSON values.
- Store.FeatureStore.Insert: the store's schema check is simplified. An insert fails when a primary-key column is missing, or when the columns differ, as a set, from the schema the first insert fixed. Type checking of columns is not modelled.
- Store.FeatureStore.GetOrCreateFeatureGroup: the group is registered when it is got or created, not when the backend first materialises it.
- Store.FeatureStore.GetBatchData: the batch data is every row of the group with every column. A view's projection of label columns or primary keys is not modelled. The row order is left open.
- The store's storage, version history, commit timeline and concurrent access are not modelled. Each job is taken to run alone.
- The time-window filtering, resampling and category counts of the dashboard pages are not modelled: they are not in the core files.
