/** Token URIs: from the contract's URI to the article, and through the CDN to the stored metadata. */
module Metadata {
  import opened Contract

  /** The key `CreateForArticle` uploads to. */
  function MetadataKey(article: string): string {
    "nfts/" + article + ".json"
  }

  /** `strings.TrimPrefix` */
  function TrimPrefix(s: string, prefix: string): string {
    if prefix <= s then s[|prefix|..] else s
  }

  /** The URI of a minted token gives its article back, even when the article's id starts like a URI. */
  lemma TrimmedURIIsArticle(article: string)
    ensures TrimPrefix(BASE_URI + article, BASE_URI) == article
    ensures TrimPrefix(BASE_URI + BASE_URI + article, BASE_URI) == BASE_URI + article
  {
    assert BASE_URI + BASE_URI + article == BASE_URI + (BASE_URI + article);
  }

  // ---------- the path a CDN request carries ----------

  function FromSlash(s: string): string {
    if s == "" || s[0] == '/' then s else FromSlash(s[1..])
  }

  function UpToQuery(s: string): string {
    if s == "" || s[0] == '?' || s[0] == '#' then "" else [s[0]] + UpToQuery(s[1..])
  }

  /** The path component of an https URI (RFC 3986, section 3.3). */
  function PathOf(uri: string): string {
    UpToQuery(FromSlash(TrimPrefix(uri, SCHEME)))
  }

  function Rewritten(path: string): string {
    path + ".json"
  }

  /** Objects are fetched from the bucket under the request path without its leading slash. */
  function ObjectKey(path: string): string {
    TrimPrefix(path, "/")
  }

  lemma {:induction false} HostIsSkipped(host: string, path: string)
    requires '/' !in host && (path == "" || path[0] == '/')
    ensures FromSlash(host + path) == path
  {
    if host == "" {
      assert host + path == path;
    } else {
      HostIsSkipped(host[1..], path);
      assert (host + path)[1..] == host[1..] + path;
    }
  }

  lemma {:induction false} NoQuery(s: string)
    requires '?' !in s && '#' !in s
    ensures UpToQuery(s) == s
  {
    if s != "" {
      NoQuery(s[1..]);
    }
  }

  /** The rewritten path of a token's URI names exactly the object uploaded when the article was minted. */
  lemma URILeadsToMetadata(article: string)
    requires '?' !in article && '#' !in article
    ensures ObjectKey(Rewritten(PathOf(BASE_URI + article))) == MetadataKey(article)
  {
    var path := "/nfts/" + article;
    assert BASE_URI + article == SCHEME + (HOST + path);
    TrimmedPrefix(SCHEME, HOST + path);
    HostHasNoSlash();
    HostIsSkipped(HOST, path);
    NoQuery(path);
    assert path + ".json" == "/" + MetadataKey(article);
    TrimmedPrefix("/", MetadataKey(article));
  }

  lemma TrimmedPrefix(prefix: string, rest: string)
    ensures TrimPrefix(prefix + rest, prefix) == rest
  {
  }

  lemma HostHasNoSlash()
    ensures '/' !in HOST
  {
  }

  /** Different articles never share a metadata object. */
  lemma KeysAreDistinct(a: string, b: string)
    requires MetadataKey(a) == MetadataKey(b)
    ensures a == b
  {
    var x, y := MetadataKey(a), MetadataKey(b);
    assert |x| == |a| + 10 && |y| == |b| + 10;
    assert x[5..|a| + 5] == a && y[5..|b| + 5] == b;
  }

  /** A request as the CDN sees it, `uri` being its path. */
  class ViewerRequest {
    var uri: string

    constructor (uri: string)
      ensures this.uri == uri
    {
      this.uri := uri;
    }

    /** `handler` of appendDotJson.js: the path of a token's URI becomes that of its uploaded metadata. */
    method AppendDotJson()
      modifies this`uri
      ensures uri == Rewritten(old(uri))
      ensures forall article | '?' !in article && '#' !in article && old(uri) == PathOf(BASE_URI + article) ::
        ObjectKey(uri) == MetadataKey(article)
    {
      ghost var path := uri;
      uri := uri + ".json";
      forall article | '?' !in article && '#' !in article && path == PathOf(BASE_URI + article)
        ensures ObjectKey(uri) == MetadataKey(article)
      {
        URILeadsToMetadata(article);
      }
    }
  }
}
