/**
 * The database replay simulator: Tiled URLs read from a table are rewritten for the target
 * environment (`transform_url_for_env`), the frame index and dataset path are parsed out of
 * each URL (`_read_image_from_tiled_url_sync`), and `run()` sends a Start, one event per image
 * it could read and send, and a Stop.
 *
 * The URL handling is plain Python string splitting, modelled with the functions of PyStrings.
 * Reading the table, the Tiled client and the socket are parameters: the list of rows, a
 * `fetch` function that returns the image or `None` when the client raises, a `sendOk`
 * predicate saying which sends succeed, and the sequence of actions the method returns.
 */
module DbReplay {
  import opened Wrappers
  import opened PyStrings
  import opened Messages

  const DevHost := "tiled-dev.nsls2.bnl.gov"
  const ApiPath := "/api/v1/"
  const ArrayFull := "array/full/"
  /** The `url_pattern` of the two environments of `TILED_URLS`. */
  const DevPattern := "http://" + DevHost + ApiPath + ArrayFull
  const ProdPattern := "http://tiled.nsls2.bnl.gov" + ApiPath + ArrayFull

  // ---------------------------------------------------------------------------------------
  // transform_url_for_env
  // ---------------------------------------------------------------------------------------

  /** An environment outside `TILED_URLS` falls back to "dev". */
  function EffectiveEnv(env: string): string
  {
    if env == "dev" || env == "prod" then env else "dev"
  }

  function Pattern(env: string): string
  {
    if env == "prod" then ProdPattern else DevPattern
  }

  /** Python's truth value of a value that is `None` or a string. */
  predicate Filled(o: Option<string>)
  {
    o.Some? && |o.value| > 0
  }

  /** `tiled_url.split('?')[1]` when the URL has a '?': the text between its first and second '?'. */
  function SliceParam(url: string): Option<string>
  {
    if Contains(url, "?") then
      SplitFound(url, "?");
      Some(Split(url, "?")[1])
    else None
  }

  /** The query text a URL carries, "" when it has none. */
  function Query(url: string): string
  {
    SliceParam(url).GetOr("")
  }

  /** `tiled_url.split('?')[0]`. */
  function WithoutQuery(url: string): string
  {
    Split(url, "?")[0]
  }

  /** The UUID (the segment right after the first "array/full/") and the stream path (the
      segments after it, up to a second "array/full/" if there is one). */
  function UuidAndStream(path: string): (Option<string>, Option<string>)
  {
    if Contains(path, ArrayFull) then
      SplitFound(path, ArrayFull);
      var parts := Split(Split(path, ArrayFull)[1], "/");
      (Some(parts[0]), if |parts| > 1 then Some(Join(parts[1..], "/")) else None)
    else (None, None)
  }

  function Last(parts: seq<string>): string
    requires |parts| > 0
  {
    parts[|parts| - 1]
  }

  /** The rewritten URL before its query: prod keeps only the last segment of the stream path
      under "smi/raw/<uuid>/primary/data/", dev keeps the whole stream path. */
  function RewrittenPath(env: string, uuid: string, stream: string): string
  {
    Pattern(env) + RewrittenTail(env, uuid, stream)
  }

  /** What follows the pattern in a rewritten URL. */
  function RewrittenTail(env: string, uuid: string, stream: string): string
  {
    if env == "prod" then "smi/raw/" + uuid + "/primary/data/" + Last(Split(stream, "/"))
    else uuid + "/" + stream
  }

  /** `f"{new_url}?{slice_param}"` when the slice parameter is truthy. */
  function WithQuery(u: string, slice: Option<string>): string
  {
    if Filled(slice) then u + "?" + slice.value else u
  }

  /** `transform_url_for_env(tiled_url, env)`. */
  function TransformUrlForEnv(url: string, env0: string): string
  {
    var env := EffectiveEnv(env0);
    if env == "dev" && Contains(url, DevHost) then url
    else
      var (uuid, stream) := UuidAndStream(WithoutQuery(url));
      if !Filled(uuid) || !Filled(stream) then url
      else WithQuery(RewrittenPath(env, uuid.value, stream.value), SliceParam(url))
  }

  /** An unknown environment is treated as "dev". */
  lemma UnknownEnvIsDev(url: string, env: string)
    requires env != "dev" && env != "prod"
    ensures TransformUrlForEnv(url, env) == TransformUrlForEnv(url, "dev")
  {
  }

  /** In "dev", a URL already on the dev server is left alone. */
  lemma DevUrlsKept(url: string)
    requires Contains(url, DevHost)
    ensures TransformUrlForEnv(url, "dev") == url
  {
  }

  /** A URL whose path has no "array/full/", or no '/' after the text following it (so no
      stream path after the UUID), is returned unchanged. */
  lemma UnparsedUrlsKept(url: string, env: string)
    requires !Contains(WithoutQuery(url), ArrayFull)
      || (SplitFound(WithoutQuery(url), ArrayFull); !Contains(Split(WithoutQuery(url), ArrayFull)[1], "/"))
    ensures TransformUrlForEnv(url, env) == url
  {
    if Contains(WithoutQuery(url), ArrayFull) {
      SplitFound(WithoutQuery(url), ArrayFull);
      SplitAbsent(Split(WithoutQuery(url), ArrayFull)[1], "/");
    }
  }

  lemma LacksConcat(a: string, b: string, c: char)
    ensures Lacks(a + b, c) <==> Lacks(a, c) && Lacks(b, c)
  {
    if Lacks(a + b, c) {
      assert forall k :: 0 <= k < |a| ==> a[k] == (a + b)[k];
      assert forall k :: 0 <= k < |b| ==> b[k] == (a + b)[|a| + k];
    }
  }

  /** The fixed pieces of the rewrite hold neither a '?' nor a '='. */
  lemma PatternsLack(c: char)
    requires c == '?' || c == '='
    ensures Lacks(DevPattern, c) && Lacks(ProdPattern, c)
    ensures Lacks("smi/raw/", c) && Lacks("/primary/data/", c) && Lacks("/", c)
  {
    var a, b, p, d := "http://", "http://tiled.nsls2.bnl.gov", ApiPath, ArrayFull;
    assert Lacks(a, c) && Lacks(DevHost, c) && Lacks(b, c) && Lacks(p, c) && Lacks(d, c);
    LacksConcat(a, DevHost, c);
    LacksConcat(a + DevHost, p, c);
    LacksConcat(a + DevHost + p, d, c);
    LacksConcat(b, p, c);
    LacksConcat(b + p, d, c);
  }

  /** A path without `c` is rewritten into a path without `c`. */
  lemma RewrittenPathLacks(env: string, path: string, c: char)
    requires c == '?' || c == '='
    requires Lacks(path, c)
    requires var (uuid, stream) := UuidAndStream(path); uuid.Some? && stream.Some?
    ensures var (uuid, stream) := UuidAndStream(path);
      Lacks(RewrittenPath(EffectiveEnv(env), uuid.value, stream.value), c)
  {
    var e := EffectiveEnv(env);
    SplitFound(path, ArrayFull);
    SplitPartsLack(path, ArrayFull, c);
    var after := Split(path, ArrayFull)[1];
    SplitPartsLack(after, "/", c);
    var parts := Split(after, "/");
    LacksJoin(parts[1..], "/", c);
    var uuid := parts[0];
    var stream := Join(parts[1..], "/");
    SplitPartsLack(stream, "/", c);
    PatternsLack(c);
    if e == "prod" {
      LacksConcat("smi/raw/", uuid, c);
      LacksConcat("smi/raw/" + uuid, "/primary/data/", c);
      LacksConcat("smi/raw/" + uuid + "/primary/data/", Last(Split(stream, "/")), c);
    } else {
      LacksConcat(uuid, "/", c);
      LacksConcat(uuid + "/", stream, c);
    }
    LacksConcat(Pattern(e), RewrittenTail(e, uuid, stream), c);
  }

  /** The rewrite keeps the query: whatever followed the URL's first '?' (up to a second one)
      follows the rewritten URL's only '?', and a URL with no query text gets none. */
  lemma TransformKeepsQuery(url: string, env: string)
    ensures Query(TransformUrlForEnv(url, env)) == Query(url)
  {
    var r := TransformUrlForEnv(url, env);
    var (uuid, stream) := UuidAndStream(WithoutQuery(url));
    if r != url {
      UrlPartsLackMark(url);
      RewrittenPathLacks(env, WithoutQuery(url), '?');
      var newUrl := RewrittenPath(EffectiveEnv(env), uuid.value, stream.value);
      var slice := SliceParam(url);
      assert r == WithQuery(newUrl, slice);
      if Filled(slice) {
        QueryOf(newUrl, slice.value);
      } else {
        ContainsCharIff(newUrl, '?');
      }
    }
  }

  /** Neither the part of a URL before its first '?' nor its query holds a '?'. */
  lemma UrlPartsLackMark(url: string)
    ensures Lacks(WithoutQuery(url), '?')
    ensures SliceParam(url).Some? ==> Lacks(SliceParam(url).value, '?')
  {
    SplitPartsLackSep(url, "?");
    ContainsCharIff(WithoutQuery(url), '?');
    if SliceParam(url).Some? {
      ContainsCharIff(SliceParam(url).value, '?');
    }
  }

  lemma OccursInConcat(a: string, b: string, sub: string, i: nat)
    requires OccursAt(a, sub, i)
    ensures OccursAt(a + b, sub, i)
  {
    assert (a + b)[i..i + |sub|] == a[i..i + |sub|];
  }

  lemma WithQueryStartsWith(p: string, tail: string, slice: Option<string>)
    ensures StartsWith(WithQuery(p + tail, slice), p)
  {
    if Filled(slice) {
      assert p + tail + "?" + slice.value == p + (tail + "?" + slice.value);
      StartsWithConcat(p, tail + "?" + slice.value);
    } else {
      StartsWithConcat(p, tail);
    }
  }

  /** A rewritten URL starts with the target environment's pattern. */
  lemma TransformTargetsEnv(url: string, env: string)
    ensures TransformUrlForEnv(url, env) != url ==>
      StartsWith(TransformUrlForEnv(url, env), Pattern(EffectiveEnv(env)))
  {
    var (uuid, stream) := UuidAndStream(WithoutQuery(url));
    if TransformUrlForEnv(url, env) != url {
      var e := EffectiveEnv(env);
      WithQueryStartsWith(Pattern(e), RewrittenTail(e, uuid.value, stream.value), SliceParam(url));
    }
  }

  /** Rewriting for "dev" twice is rewriting once: the first rewrite lands on the dev server. */
  lemma TransformDevIdempotent(url: string)
    ensures TransformUrlForEnv(TransformUrlForEnv(url, "dev"), "dev") == TransformUrlForEnv(url, "dev")
  {
    var r := TransformUrlForEnv(url, "dev");
    if r != url {
      RewriteOnDevHost(url);
      DevUrlsKept(r);
    }
  }

  /** A URL the "dev" rewrite changes ends up on the dev server. */
  lemma RewriteOnDevHost(url: string)
    requires TransformUrlForEnv(url, "dev") != url
    ensures Contains(TransformUrlForEnv(url, "dev"), DevHost)
  {
    TransformTargetsEnv(url, "dev");
    assert Pattern(EffectiveEnv("dev")) == DevPattern;
    OnDevHost(TransformUrlForEnv(url, "dev"));
  }

  /** A URL that starts with the dev pattern names the dev server. */
  lemma OnDevHost(r: string)
    requires StartsWith(r, DevPattern)
    ensures Contains(r, DevHost)
  {
    OccursSecond("http://", DevHost, ApiPath, ArrayFull);
    assert |"http://"| == 7;
    assert r == DevPattern + r[|DevPattern|..];
    OccursInConcat(DevPattern, r[|DevPattern|..], DevHost, 7);
    ContainsIff(r, DevHost);
  }

  lemma OccursSecond(a: string, b: string, c: string, d: string)
    ensures OccursAt(a + b + c + d, b, |a|)
  {
    assert (a + b + c + d)[|a|..|a| + |b|] == b;
  }

  // ---------------------------------------------------------------------------------------
  // _read_image_from_tiled_url_sync
  // ---------------------------------------------------------------------------------------

  /** `tiled_url.split('slice=')[1].split('&')[0]`: the text after the first "slice=", up to
      the next "slice=" or '&'. */
  function SliceValue(url: string): string
    requires Contains(url, "slice=")
  {
    SplitFound(url, "slice=");
    Split(Split(url, "slice=")[1], "&")[0]
  }

  /** The index a slice value names: `int(parts[0])` of `value.split(',')[0].split(':')` when
      the value has a ':' and that part is all digits, else 0. */
  function IndexOfSlice(value: string): nat
  {
    if Contains(value, ":") then
      var parts := Split(Split(value, ",")[0], ":");
      if IsDigits(parts[0]) then DigitsValue(parts[0]) else 0
    else 0
  }

  /** The frame index of lines 151-157; 0 when the URL has no '?' or no "slice=". */
  function SliceIndex(url: string): nat
  {
    if Contains(url, "?") && Contains(url, "slice=") then IndexOfSlice(SliceValue(url)) else 0
  }

  /** Without a '?' or a "slice=", or with a slice value lacking ':', the index is 0. */
  lemma SliceIndexDefaults(url: string)
    ensures !Contains(url, "?") || !Contains(url, "slice=") ==> SliceIndex(url) == 0
    ensures Contains(url, "slice=") && !Contains(SliceValue(url), ":") ==> SliceIndex(url) == 0
  {
  }

  lemma SliceMarkerFirst(q: string, rest: string)
    requires Lacks(q, '?') && !Contains(q, "slice=")
    ensures forall j :: 0 <= j < |q + "?"| ==> !OccursAt(q + "?" + "slice=" + rest, "slice=", j)
  {
    var u := q + "?" + "slice=" + rest;
    var m := "slice=";
    ContainsIff(q, m);
    assert |m| == 6;
    forall j | 0 <= j < |q| + 1
      ensures !OccursAt(u, m, j)
    {
      if j + 6 <= |q| {
        assert !OccursAt(q, m, j);
        assert u[j..j + 6] == q[j..j + 6];
      } else if j + 6 <= |u| {
        assert u[j..j + 6][|q| - j] == '?';
        assert m[|q| - j] != '?';
      }
    }
  }

  lemma FirstCommaPart(d: string, x: string)
    requires IsDigits(d)
    ensures Split(d + ":" + x, ",")[0] == d + ":" + Split(x, ",")[0]
  {
    var dc := d + ":";
    assert forall i :: 0 <= i < |dc| ==> dc[i] != ',';
    SplitHeadPrefix(dc, x, ",");
  }

  lemma DigitsBeforeColon(d: string, t: string)
    requires IsDigits(d)
    ensures Split(d + ":" + t, ":")[0] == d
  {
    assert forall i :: 0 <= i < |d| ==> d[i] != ':';
    assert d + ":" + t == d + (":" + t);
    SplitHeadPrefix(d, ":" + t, ":");
    SplitLeadingSep(":", t);
  }

  /** A value that starts with digits and a ':' names the number those digits spell. */
  lemma IndexOfDigits(d: string, x: string)
    requires IsDigits(d)
    ensures IndexOfSlice(d + ":" + x) == DigitsValue(d)
  {
    var value := d + ":" + x;
    assert value[|d|..|d| + 1] == ":";
    assert OccursAt(value, ":", |d|);
    ContainsIff(value, ":");
    FirstCommaPart(d, x);
    DigitsBeforeColon(d, Split(x, ",")[0]);
  }

  /** The text after the first "slice=" of such a URL is everything after its "?slice=". */
  lemma AfterSliceMarker(q: string, rest: string)
    requires Lacks(q, '?') && !Contains(q, "slice=")
    ensures var url := q + "?" + "slice=" + rest;
      Contains(url, "slice=") && |Split(url, "slice=")| > 1 && Split(url, "slice=")[1] == Split(rest, "slice=")[0]
  {
    var url := q + "?" + "slice=" + rest;
    assert url[|q| + 1..|q| + 7] == "slice=";
    assert OccursAt(url, "slice=", |q| + 1);
    ContainsIff(url, "slice=");
    SliceMarkerFirst(q, rest);
    SplitAfterFirst(q + "?", "slice=", rest);
  }

  /** The slice value of such a URL starts with the digits and the ':'. */
  lemma SliceValueOf(q: string, d: string, r: string)
    requires Lacks(q, '?') && !Contains(q, "slice=") && IsDigits(d)
    ensures var url := q + "?" + "slice=" + (d + ":" + r);
      Contains(url, "slice=") && SliceValue(url) == d + ":" + Split(Split(r, "slice=")[0], "&")[0]
  {
    var rest := d + ":" + r;
    AfterSliceMarker(q, rest);
    var dc := d + ":";
    assert forall i :: 0 <= i < |dc| ==> dc[i] != 's' && dc[i] != '&';
    assert rest == dc + r;
    SplitHeadPrefix(dc, r, "slice=");
    SplitHeadPrefix(dc, Split(r, "slice=")[0], "&");
  }

  /** The index written into a URL comes back out: after a query-free prefix `q`, a
      `?slice=` whose first range starts with `str(k)` and a ':' gives index `k`. */
  lemma SliceIndexRoundTrip(q: string, k: nat, r: string)
    requires Lacks(q, '?') && !Contains(q, "slice=")
    ensures SliceIndex(q + "?slice=" + NatToString(k) + ":" + r) == k
  {
    var d := NatToString(k);
    var url := q + "?" + "slice=" + (d + ":" + r);
    assert url == q + "?slice=" + NatToString(k) + ":" + r;
    assert url[|q|..|q| + 1] == "?";
    assert OccursAt(url, "?", |q|);
    ContainsIff(url, "?");
    SliceValueOf(q, d, r);
    IndexOfDigits(d, Split(Split(r, "slice=")[0], "&")[0]);
    NatToStringRoundTrip(k);
  }

  /** Where an image lives: the metadata endpoint of its server and the dataset path in it. */
  datatype Location = Location(baseUri: string, dataset: string)

  /** Lines 160-182: `None` when the query-free URL does not split into exactly two parts on
      "/api/v1/"; else the server prefix with "/api/v1/metadata", and the path after
      "/api/v1/" with anything up to its first "array/full/" removed. */
  function ParseTiledUrl(url: string): Option<Location>
  {
    var path := WithoutQuery(url);
    var parts := Split(path, ApiPath);
    if |parts| != 2 then None
    else Some(Location(parts[0] + ApiPath + "metadata", DatasetPath(path, parts[1])))
  }

  /** Lines 173-182: the text after the first "array/full/" of `full` (up to a second one) when
      the query-free URL has an "array/full/" and `full` splits on it; else all of `full`. */
  function DatasetPath(path: string, full: string): string
  {
    if Contains(path, ArrayFull) then
      var pp := Split(full, ArrayFull);
      if |pp| > 1 then pp[1] else full
    else full
  }

  /** A URL is read from exactly when "/api/v1/" occurs once in its query-free part. */
  lemma ParsedIffOneApiPath(url: string)
    ensures var path := WithoutQuery(url);
      ParseTiledUrl(url).Some? <==>
        Contains(path, ApiPath) && !Contains(path[Find(path, ApiPath).value + |ApiPath|..], ApiPath)
  {
    var path := WithoutQuery(url);
    if Contains(path, ApiPath) {
      SplitFound(path, ApiPath);
      var after := path[Find(path, ApiPath).value + |ApiPath|..];
      if Contains(after, ApiPath) {
        SplitFound(after, ApiPath);
      } else {
        SplitAbsent(after, ApiPath);
      }
    } else {
      SplitAbsent(path, ApiPath);
    }
  }

  /** Splitting a path with one "/api/v1/" gives the text before and the text after it. */
  lemma OneApiPathParts(path: string)
    requires |Split(path, ApiPath)| == 2
    ensures Contains(path, ApiPath)
    ensures var i := Find(path, ApiPath).value;
      Split(path, ApiPath) == [path[..i], path[i + |ApiPath|..]]
  {
    if !Contains(path, ApiPath) {
      SplitAbsent(path, ApiPath);
    }
    SplitFound(path, ApiPath);
    var after := path[Find(path, ApiPath).value + |ApiPath|..];
    if Contains(after, ApiPath) {
      SplitFound(after, ApiPath);
    }
    SplitAbsent(after, ApiPath);
  }

  /** The base URI is the text before "/api/v1/" followed by "/api/v1/metadata". */
  lemma ParsedBaseUri(url: string)
    requires ParseTiledUrl(url).Some?
    ensures var path := WithoutQuery(url);
      && Contains(path, ApiPath)
      && ParseTiledUrl(url).value.baseUri == path[..Find(path, ApiPath).value] + ApiPath + "metadata"
  {
    OneApiPathParts(WithoutQuery(url));
  }

  /** The dataset is the text after "/api/v1/" when no "array/full/" follows it, and the text
      after the first "array/full/" there (up to a second one) when one does. */
  lemma ParsedDataset(url: string)
    requires ParseTiledUrl(url).Some?
    ensures var path := WithoutQuery(url);
      && Contains(path, ApiPath)
      && var after := path[Find(path, ApiPath).value + |ApiPath|..];
        && (!Contains(after, ArrayFull) ==> ParseTiledUrl(url).value.dataset == after)
        && (Contains(after, ArrayFull) ==>
              |Split(after, ArrayFull)| > 1 && ParseTiledUrl(url).value.dataset == Split(after, ArrayFull)[1])
  {
    var path := WithoutQuery(url);
    OneApiPathParts(path);
    var i := Find(path, ApiPath).value + |ApiPath|;
    var after := path[i..];
    assert ParseTiledUrl(url).value.dataset == DatasetPath(path, after);
    if Contains(after, ArrayFull) {
      SplitFound(after, ArrayFull);
      ContainsInSuffix(path, i, ArrayFull);
    } else {
      SplitAbsent(after, ArrayFull);
    }
  }

  /** A pattern found in a suffix of a path is found in the path. */
  lemma ContainsInSuffix(path: string, i: nat, pat: string)
    requires i <= |path| && Contains(path[i..], pat)
    ensures Contains(path, pat)
  {
    var after := path[i..];
    ContainsIff(after, pat);
    var f := Find(after, pat).value;
    assert path == path[..i] + after;
    OccursInSuffix(path[..i], after, pat);
    ContainsIff(path, pat);
  }

  /** What the Tiled client gives for `from_uri(base)[dataset][index]`; `None` when any of
      the three steps raises. */
  type Fetch = (string, string, nat) -> Option<Image>

  /** `_read_image_from_tiled_url_sync(tiled_url)`: the image and its index, or `(None, 0)`. */
  function ReadImage(url: string, fetch: Fetch): (Option<Image>, nat)
  {
    var index := SliceIndex(url);
    match ParseTiledUrl(url)
    case None => (None, 0)
    case Some(loc) =>
      match fetch(loc.baseUri, loc.dataset, index)
      case None => (None, 0)
      case Some(image) => (Some(image), index)
  }

  lemma ReadImageSpec(url: string, fetch: Fetch)
    ensures var (image, index) := ReadImage(url, fetch);
      && (image.None? ==> index == 0)
      && (image.Some? <==>
            ParseTiledUrl(url).Some?
            && fetch(ParseTiledUrl(url).value.baseUri, ParseTiledUrl(url).value.dataset, SliceIndex(url)).Some?)
      && (image.Some? ==> index == SliceIndex(url))
  {
  }

  // ---------------------------------------------------------------------------------------
  // run()
  // ---------------------------------------------------------------------------------------

  /** What the replay does, in order: send a message on the socket, or sleep. */
  datatype Action = Send(msg: Msg) | Sleep(millis: nat)

  /** A row `(id, tiled_url)` of the `vectors` table, in id order. */
  datatype Row = Row(id: int, url: string)

  const FrameWidth := 1679
  const FrameHeight := 1475

  /** The start message; `now` is the formatted current time. */
  function StartMessage(env: string, now: string): Msg
  {
    Start(FrameWidth, FrameHeight, "uint32", Some(env + "://latent_vectors"), Some(env + "_tiled_run"), Some(now))
  }

  /** The event sent for a row: its index, its image and the rewritten URL, or `None` when
      the image could not be read. */
  function RowEvent(row: Row, env: string, fetch: Fetch): Option<Msg>
  {
    var t := TransformUrlForEnv(row.url, env);
    var (image, index) := ReadImage(t, fetch);
    if image.None? then None else Some(Event(index, image, Some(t)))
  }

  /** The frame number a row's event carries is the index named by the slice of the row's
      own URL: the rewrite keeps the query, and a path without '=' cannot hold a "slice=". */
  lemma RowEventIndex(row: Row, env: string, fetch: Fetch, q: string, s: string)
    requires row.url == q + "?" + s && Lacks(q, '?') && Lacks(q, '=') && Lacks(s, '?')
    ensures RowEvent(row, env, fetch).Some? ==> RowEvent(row, env, fetch).value.frameNumber == SliceIndex(row.url)
  {
    var t := TransformUrlForEnv(row.url, env);
    ReadImageSpec(t, fetch);
    SliceIndexOfQuery(q, s);
    if t != row.url {
      RewriteSliceIndex(env, q, s);
    }
  }

  /** A rewritten URL names the slice index of the query it kept. */
  lemma RewriteSliceIndex(env: string, q: string, s: string)
    requires Lacks(q, '?') && Lacks(q, '=') && Lacks(s, '?')
    requires TransformUrlForEnv(q + "?" + s, env) != q + "?" + s
    ensures SliceIndex(TransformUrlForEnv(q + "?" + s, env)) == SliceIndex("?" + s)
  {
    var url := q + "?" + s;
    var t := TransformUrlForEnv(url, env);
    QueryOf(q, s);
    var (uuid, stream) := UuidAndStream(q);
    var newUrl := RewrittenPath(EffectiveEnv(env), uuid.value, stream.value);
    RewrittenPathLacks(env, q, '?');
    RewrittenPathLacks(env, q, '=');
    if |s| > 0 {
      assert t == newUrl + "?" + s;
      SliceIndexOfQuery(newUrl, s);
    } else {
      assert t == newUrl;
      ContainsCharIff(newUrl, '?');
      assert "?" + s == "?";
      assert !Contains("?", "slice=");
    }
  }

  /** A URL with exactly one '?' splits into its path and its query there. */
  lemma QueryOf(q: string, s: string)
    requires Lacks(q, '?') && Lacks(s, '?')
    ensures SliceParam(q + "?" + s) == Some(s) && WithoutQuery(q + "?" + s) == q
  {
    var url := q + "?" + s;
    assert url[|q|..|q| + 1] == "?";
    assert OccursAt(url, "?", |q|);
    ContainsIff(url, "?");
    NoOccurrenceFromPrefix(q, "?" + s, "?");
    assert url == q + ("?" + s);
    SplitAfterFirst(q, "?", s);
    ContainsCharIff(s, '?');
    SplitAbsent(s, "?");
  }

  /** Whatever comes before a URL's '?', when it has no '=', the slice index is that of the
      query alone. */
  lemma SliceIndexOfQuery(p: string, s: string)
    requires Lacks(p, '=')
    ensures SliceIndex(p + "?" + s) == SliceIndex("?" + s)
  {
    var m := "slice=";
    var x := p + "?";
    var u := x + s;
    var v := "?" + s;
    assert u[|p|..|p| + 1] == "?" && OccursAt(u, "?", |p|);
    assert v[0..1] == "?" && OccursAt(v, "?", 0);
    ContainsIff(u, "?");
    ContainsIff(v, "?");
    forall j | 0 <= j < |x|
      ensures !OccursAt(u, m, j)
    {
      NoSliceKeyBefore(p, s, j);
    }
    forall j | 0 <= j < 1
      ensures !OccursAt(v, m, j)
    {
      if j + 6 <= |v| {
        assert v[j..j + 6][0] == '?';
      }
    }
    SplitHeadPrefixFree(x, s, m);
    SplitHeadPrefixFree("?", s, m);
    SplitsIffContains(u, m);
    SplitsIffContains(v, m);
  }

  /** No "slice=" starts before the '?' of a URL whose path holds no '='. */
  lemma NoSliceKeyBefore(p: string, s: string, j: nat)
    requires Lacks(p, '=') && j <= |p|
    ensures !OccursAt(p + "?" + s, "slice=", j)
  {
    var u := p + "?" + s;
    if j + 6 <= |u| {
      var w := u[j..j + 6];
      if j + 5 < |p| {
        assert w[5] == p[j + 5];
        assert w[5] != "slice="[5];
      } else {
        var k := |p| - j;
        assert w[k] == u[|p|] == '?';
        assert w[k] != "slice="[k];
      }
    }
  }

  /** Whether a send on the socket succeeds; a failed send raises. */
  type SendOk = Msg -> bool

  /** What a row puts on the socket: its event, when the image could be read and the send
      succeeded. A failed frame send is caught by the loop's `except`, which skips the sleep. */
  function Delivered(row: Row, env: string, fetch: Fetch, sendOk: SendOk): (r: Option<Msg>)
    ensures r.Some? <==> RowEvent(row, env, fetch).Some? && sendOk(RowEvent(row, env, fetch).value)
    ensures r.Some? ==> r == RowEvent(row, env, fetch)
  {
    match RowEvent(row, env, fetch)
    case None => None
    case Some(m) => if sendOk(m) then Some(m) else None
  }

  /** What each row puts on the socket, in table order. */
  function Outcomes(rows: seq<Row>, env: string, fetch: Fetch, sendOk: SendOk): (r: seq<Option<Msg>>)
    ensures |r| == |rows|
    ensures forall i :: 0 <= i < |rows| ==> r[i] == Delivered(rows[i], env, fetch, sendOk)
  {
    seq(|rows|, i requires 0 <= i < |rows| => Delivered(rows[i], env, fetch, sendOk))
  }

  /** One pass of the `for` loop: the event and a 0.1 s sleep, or nothing when reading failed. */
  function FrameActions(outcome: Option<Msg>): seq<Action>
  {
    if outcome.Some? then [Send(outcome.value), Sleep(100)] else []
  }

  function Frames(outcomes: seq<Option<Msg>>): seq<Action>
  {
    if |outcomes| == 0 then []
    else Frames(outcomes[..|outcomes| - 1]) + FrameActions(outcomes[|outcomes| - 1])
  }

  lemma FramesSnoc(outcomes: seq<Option<Msg>>, i: nat)
    requires i < |outcomes|
    ensures Frames(outcomes[..i + 1]) == Frames(outcomes[..i]) + FrameActions(outcomes[i])
  {
    assert outcomes[..i + 1][..i] == outcomes[..i];
  }

  /** What `run()` did: the actions it completed, and whether a failed send of the start or
      the stop message ended it with the socket's exception. */
  datatype Replayed = Replayed(actions: seq<Action>, raised: bool)

  /** Everything `run()` does after opening the socket: nothing when the database file is
      missing or yields no rows; otherwise the start message, the frames, and a stop message
      counting the rows; a failed start or stop send raises out of `run()`. */
  function Replay(dbExists: bool, rows: seq<Row>, env: string, fetch: Fetch, sendOk: SendOk, now: string): Replayed
  {
    var start := StartMessage(env, now);
    if !dbExists || |rows| == 0 then Replayed([], false)
    else if !sendOk(start) then Replayed([], true)
    else
      var sent := [Send(start)] + Frames(Outcomes(rows, env, fetch, sendOk));
      if sendOk(Stop(|rows|)) then Replayed(sent + [Send(Stop(|rows|))], false) else Replayed(sent, true)
  }

  /** `run()`. */
  method Run(dbExists: bool, rows: seq<Row>, env: string, fetch: Fetch, sendOk: SendOk, now: string)
    returns (out: seq<Action>, raised: bool)
    ensures Replayed(out, raised) == Replay(dbExists, rows, env, fetch, sendOk, now)
  {
    out, raised := [], false;
    if !dbExists || |rows| == 0 {
      return;
    }
    var start := StartMessage(env, now);
    if !sendOk(start) {
      raised := true;
      return;
    }
    out := [Send(start)];
    var frames := ReplayRows(rows, env, fetch, sendOk);
    out := out + frames;
    var stop := Stop(|rows|);
    if !sendOk(stop) {
      raised := true;
      return;
    }
    out := out + [Send(stop)];
  }

  /** The `for` loop of `run()`: each row is rewritten and read, and yields its event and a
      sleep, or nothing when reading or sending failed. */
  method ReplayRows(rows: seq<Row>, env: string, fetch: Fetch, sendOk: SendOk) returns (frames: seq<Action>)
    ensures frames == Frames(Outcomes(rows, env, fetch, sendOk))
  {
    ghost var outcomes := Outcomes(rows, env, fetch, sendOk);
    frames := [];
    var i := 0;
    while i < |rows|
      invariant 0 <= i <= |rows|
      invariant frames == Frames(outcomes[..i])
    {
      var event := RowEvent(rows[i], env, fetch);
      FramesSnoc(outcomes, i);
      if event.Some? {
        var ok := sendOk(event.value);
        if ok {
          frames := frames + [Send(event.value), Sleep(100)];
        }
      }
      i := i + 1;
    }
    assert outcomes[..i] == outcomes;
  }

  /** The positions in `outcomes[..n]` that yield an event, ascending. */
  function Present(outcomes: seq<Option<Msg>>, n: nat): seq<nat>
    requires n <= |outcomes|
  {
    if n == 0 then []
    else Present(outcomes, n - 1) + (if outcomes[n - 1].Some? then [n - 1] else [])
  }

  lemma {:induction false} PresentSpec(outcomes: seq<Option<Msg>>, n: nat)
    requires n <= |outcomes|
    ensures var r := Present(outcomes, n);
      && |r| <= n
      && (forall i :: i in r <==> 0 <= i < n && outcomes[i].Some?)
      && (forall a, b :: 0 <= a < b < |r| ==> r[a] < r[b])
  {
    if n > 0 {
      PresentSpec(outcomes, n - 1);
      var ri := Present(outcomes, n - 1);
      var r := Present(outcomes, n);
      forall a, b | 0 <= a < b < |r|
        ensures r[a] < r[b]
      {
        if b >= |ri| {
          assert r[a] == ri[a] && ri[a] in ri;
        }
      }
    }
  }

  /** Outcomes that agree on their first `n` entries have the same present positions there. */
  lemma {:induction false} PresentAgree(a: seq<Option<Msg>>, b: seq<Option<Msg>>, n: nat)
    requires n <= |a| && n <= |b| && a[..n] == b[..n]
    ensures Present(a, n) == Present(b, n)
  {
    if n > 0 {
      assert a[..n - 1] == a[..n][..n - 1] && b[..n - 1] == b[..n][..n - 1];
      assert a[n - 1] == a[..n][n - 1] && b[n - 1] == b[..n][n - 1];
      PresentAgree(a, b, n - 1);
    }
  }

  /** The frames are, in table order, one event and then a sleep for each row that put one
      on the socket: the `2k`-th action sends the event of the `k`-th row that got one on the socket. */
  lemma {:induction false} FramesSpec(outcomes: seq<Option<Msg>>)
    ensures var r := Present(outcomes, |outcomes|);
      && |Frames(outcomes)| == 2 * |r|
      && forall k :: 0 <= k < |r| ==>
           r[k] < |outcomes| && outcomes[r[k]].Some?
           && Frames(outcomes)[2 * k] == Send(outcomes[r[k]].value)
           && Frames(outcomes)[2 * k + 1] == Sleep(100)
  {
    if |outcomes| > 0 {
      var n := |outcomes|;
      var init := outcomes[..n - 1];
      FramesSpec(init);
      PresentAgree(outcomes, init, n - 1);
      PresentSpec(outcomes, n - 1);
      var ri := Present(outcomes, n - 1);
      var r := Present(outcomes, n);
      var out := Frames(outcomes);
      assert out == Frames(init) + FrameActions(outcomes[n - 1]);
      forall k | 0 <= k < |r|
        ensures r[k] < n && outcomes[r[k]].Some?
        ensures out[2 * k] == Send(outcomes[r[k]].value) && out[2 * k + 1] == Sleep(100)
      {
        if k < |ri| {
          assert r[k] == ri[k] && ri[k] in ri;
          assert init[ri[k]] == outcomes[ri[k]];
        }
      }
    }
  }

  /** Every position yields an event exactly when all of them are present. */
  lemma {:induction false} PresentAll(outcomes: seq<Option<Msg>>, n: nat)
    requires n <= |outcomes|
    ensures |Present(outcomes, n)| == n <==> forall i :: 0 <= i < n ==> outcomes[i].Some?
  {
    if n > 0 {
      PresentAll(outcomes, n - 1);
      PresentSpec(outcomes, n - 1);
    }
  }

  /** A Start and the frames of `outcomes`: the `k`-th present outcome is sent at position
      `2k + 1`, and a sleep follows it. */
  lemma FramedShape(start: Msg, outcomes: seq<Option<Msg>>)
    ensures var out := [Send(start)] + Frames(outcomes);
      var r := Present(outcomes, |outcomes|);
      && |out| == 2 * |r| + 1
      && out[0] == Send(start)
      && (forall k :: 0 <= k < |r| ==>
            r[k] < |outcomes| && outcomes[r[k]].Some?
            && out[2 * k + 1] == Send(outcomes[r[k]].value)
            && out[2 * k + 2] == Sleep(100))
      && (forall i :: 0 <= i < |outcomes| && outcomes[i].Some? ==> i in r)
      && |r| <= |outcomes|
      && (|r| == |outcomes| <==> forall i :: 0 <= i < |outcomes| ==> outcomes[i].Some?)
  {
    FramesSpec(outcomes);
    PresentSpec(outcomes, |outcomes|);
    PresentAll(outcomes, |outcomes|);
    var frames := Frames(outcomes);
    var out := [Send(start)] + frames;
    var r := Present(outcomes, |outcomes|);
    forall k | 0 <= k < |r|
      ensures out[2 * k + 1] == frames[2 * k] && out[2 * k + 2] == frames[2 * k + 1]
    {
    }
  }

  /** `run()` does nothing without rows. Otherwise it raises exactly when the start or the stop
      send fails, and sends nothing more after a failed start. After a good start come, for the
      `k`-th row whose event was read and sent, that event and a sleep, in table order, then a
      Stop that counts all the rows, which is more than the events sent exactly when some row
      could not be read or sent. */
  lemma ReplaySpec(dbExists: bool, rows: seq<Row>, env: string, fetch: Fetch, sendOk: SendOk, now: string)
    ensures !dbExists || |rows| == 0 ==> Replay(dbExists, rows, env, fetch, sendOk, now) == Replayed([], false)
    ensures dbExists && |rows| > 0 ==>
      var rep := Replay(dbExists, rows, env, fetch, sendOk, now);
      var start := StartMessage(env, now);
      var stopOk := sendOk(Stop(|rows|));
      var o := Outcomes(rows, env, fetch, sendOk);
      var r := Present(o, |rows|);
      var out := rep.actions;
      && (rep.raised <==> !sendOk(start) || !stopOk)
      && (!sendOk(start) ==> out == [])
      && (sendOk(start) ==>
            && |out| == 2 * |r| + (if stopOk then 2 else 1)
            && out[0] == Send(start)
            && (stopOk ==> out[|out| - 1] == Send(Stop(|rows|)))
            && (forall k :: 0 <= k < |r| ==>
                  r[k] < |rows| && o[r[k]].Some?
                  && out[2 * k + 1] == Send(o[r[k]].value)
                  && out[2 * k + 2] == Sleep(100))
            && (forall i :: 0 <= i < |rows| && o[i].Some? ==> i in r)
            && |r| <= |rows|
            && (|r| == |rows| <==> forall i :: 0 <= i < |rows| ==> o[i].Some?))
  {
    var start := StartMessage(env, now);
    if dbExists && |rows| > 0 && sendOk(start) {
      var o := Outcomes(rows, env, fetch, sendOk);
      var sent := [Send(start)] + Frames(o);
      var stopOk := sendOk(Stop(|rows|));
      var tail := if stopOk then [Send(Stop(|rows|))] else [];
      assert Replay(dbExists, rows, env, fetch, sendOk, now) == Replayed(sent + tail, !stopOk);
      FramedShape(start, o);
      AppendKeeps(sent, tail);
    }
  }

  /** Appending keeps what was there; a one-element tail ends the result. */
  lemma AppendKeeps(s: seq<Action>, tail: seq<Action>)
    requires |tail| <= 1
    ensures |s + tail| == |s| + |tail|
    ensures |tail| == 1 ==> (s + tail)[|s|] == tail[0]
    ensures forall k :: 0 <= k < |s| ==> (s + tail)[k] == s[k]
  {
  }
}
