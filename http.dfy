/** src/source/http.rs: a plain URL, identified by its ETag header. */
module Http {
  import opened Common
  import opened Tokens
  import opened Cache
  import opened Transform
  import opened Remote
  import opened Pipeline

  /** `file_name`: what follows the last `/` (`rsplit_once`), or the whole
      URL when it has none. */
  function FileName(url: string): (name: string)
    ensures '/' !in name
    ensures |name| <= |url| && name == url[|url| - |name|..]
    ensures |name| < |url| ==> url[|url| - |name| - 1] == '/'
    ensures '/' !in url ==> name == url
    decreases |url|
  {
    if url == [] then []
    else if url[|url| - 1] == '/' then []
    else
      var init := url[..|url| - 1];
      var rest := FileName(init);
      assert '/' !in url ==> '/' !in init;
      assert url[|url| - |rest| - 1..] == url[..|url| - 1][|init| - |rest|..] + [url[|url| - 1]];
      rest + [url[|url| - 1]]
  }

  /** The last segment of a URL is whatever follows its final `/`. */
  lemma {:induction false} FileNameAfterLastSlash(prefix: string, name: string)
    requires '/' !in name
    ensures FileName(prefix + "/" + name) == name
    decreases |name|
  {
    var url := prefix + "/" + name;
    if name != [] {
      var init := name[..|name| - 1];
      assert url[..|url| - 1] == prefix + "/" + init;
      FileNameAfterLastSlash(prefix, init);
      assert init + [name[|name| - 1]] == name;
    }
  }

  /** The token for an `ETag` header: its first and last characters (the
      quotes) are cut off. A header shorter than two characters makes the
      slice `etag[1..etag.len() - 1]` panic; no header gives `Unknown`. */
  function EtagToken(header: Option<string>): (r: Result<Token>)
    ensures header.None? ==> r == Ok(Unknown)
    ensures header.Some? && |header.value| < 2 ==> r.Err? && r.error.Panic?
    ensures header.Some? && |header.value| >= 2 ==>
      r.Ok? && r.value.Etag? && header.value == [header.value[0]] + r.value.etag + [header.value[|header.value| - 1]]
  {
    match header
    case None => Ok(Unknown)
    case Some(etag) =>
      if |etag| < 2 then Err(Panic("byte index out of range"))
      else
        assert etag == [etag[0]] + etag[1..|etag| - 1] + [etag[|etag| - 1]];
        Ok(Etag(etag[1..|etag| - 1]))
  }

  /** A quoted ETag yields exactly the text between the quotes. */
  lemma QuotedEtag(inner: string)
    ensures EtagToken(Some("\"" + inner + "\"")) == Ok(Etag(inner))
  {
    var header := "\"" + inner + "\"";
    assert header[1..|header| - 1] == inner;
  }

  /** Without an ETag the URL mismatches on every run, so it is downloaded
      every time. */
  lemma NoEtagAlwaysDownloads(root: Path, entries: map<string, IndexEntry>, e: Entry)
    requires e.current == CurrentToken(entries, e.key)
    ensures EtagToken(None) == Ok(Unknown)
    ensures TryUpdate(root, entries, e, Unknown).Mismatch?
  {
  }

  /** The file handed to the transform: the body under the URL's last segment. */
  function Payload(url: string, body: Result<Bytes>): Result<File>
  {
    match body
    case Err(err) => Err(err)
    case Ok(bytes) => Ok(File(FileName(url), bytes))
  }

  /** `http::load`, step by step. */
  ghost predicate LoadSpec(env: Env, root: Path, unwritable: set<Path>, s0: State, e: Entry, url: string,
                           t: Transform, s1: State, r: Result<Reference>, fetched: bool)
    requires Keyed(s0.entries)
  {
    match env.httpGet(url)
    case Err(err) => r == Err(err) && !fetched && s1 == s0
    case Ok(response) =>
      match EtagToken(response.etag)
      case Err(err) => r == Err(err) && !fetched && s1 == s0
      case Ok(token) => Decided(root, unwritable, s0, e, token, Payload(url, response.body), t, env, s1, r, fetched)
  }

  method Load(env: Env, loader: Loader, e: Entry, url: string, t: Transform) returns (r: Result<Reference>, fetched: bool)
    requires loader.Valid() && e.current == CurrentToken(loader.entries, e.key)
    modifies loader, loader.fs
    ensures loader.Valid()
    ensures LoadSpec(env, loader.root, loader.fs.unwritable, old(loader.Snapshot()), e, url, t, loader.Snapshot(), r, fetched)
  {
    var response := env.httpGet(url);
    if response.Err? {
      return Err(response.error), false;
    }
    var token := EtagToken(response.value.etag);
    if token.Err? {
      return Err(token.error), false;
    }
    match TryUpdate(loader.root, loader.entries, e, token.value) {
      case Match(reference) =>
        r, fetched := Ok(reference), false;
      case Mismatch(updater) =>
        fetched := true;
        var name := FileName(url);
        var body := response.value.body;
        if body.Err? {
          r := Err(body.error);
        } else {
          r := Commit(loader, updater, File(name, body.value), t, env);
        }
    }
  }
}
