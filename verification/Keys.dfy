/** One key space for file records, ownership documents and bookkeeping.

A file's record is stored under its name, or under a digest of it when the name is long;
a blob's ownership document under a slash and its hexadecimal identifier; everything the
cluster keeps for itself under keys that start with `/@`.  Strings are the bytes of a name.
*/
module Keys {
  import opened Hex

  const MAX_FILENAME := 250
  const TRUNCATE_KEY_LEN := 32
  const DIGEST_LEN := 40

  const INDEX := "index.html"

  type Digest = string -> string

  /** The digests of two names have the full length, and differ when the names do. */
  predicate NoCollision(digest: Digest, a: string, b: string) {
    && |digest(a)| == |digest(b)| == DIGEST_LEN
    && (a != b ==> digest(a) != digest(b))
  }

  function ShortName(digest: Digest, k: string): string {
    if |k| < MAX_FILENAME then k else "/+" + k[..TRUNCATE_KEY_LEN] + "-" + digest(k)
  }

  /** The key of an ownership document. */
  predicate OwnershipKey(k: string) {
    |k| > 1 && k[0] == '/' && forall i :: 1 <= i < |k| ==> LowerDigit(k[i])
  }

  predicate Bookkeeping(k: string) {
    |k| >= 2 && k[0] == '/' && k[1] == '@'
  }

  /** How many leading slashes a request path has. */
  function Slashes(p: string): (n: nat)
    ensures n <= |p| && (forall i :: 0 <= i < n ==> p[i] == '/') && (n < |p| ==> p[n] != '/')
  {
    if p == "" || p[0] != '/' then 0 else 1 + Slashes(p[1..])
  }

  /** A name as requests give it: no slash at either end. */
  predicate FileName(p: string) {
    p != "" && p[0] != '/' && p[|p| - 1] != '/'
  }

  /** The name a request path stands for. */
  function Resolved(url: string): string {
    var p := url[Slashes(url)..];
    if p == "" || p[|p| - 1] == '/' then p + INDEX else p
  }

  method ResolvePath(digest: Digest, url: string) returns (path: string, key: string)
    ensures path == Resolved(url) && key == ShortName(digest, path)
  {
    path := url;
    ghost var n := 0;
    while |path| > 0 && path[0] == '/'
      invariant n <= |url| && path == url[n..] && Slashes(url) == n + Slashes(path)
    {
      path := path[1..];
      n := n + 1;
    }
    if |path| > 0 && path[|path| - 1] == '/' {
      path := path + INDEX;
    } else if |path| == 0 {
      path := INDEX;
    }
    key := ShortName(digest, path);
  }

  /** Resolving gives a file name, and gives every file name: back again from the URL with any
      number of slashes before it. */
  lemma ResolvedIsName(url: string)
    ensures FileName(Resolved(url))
    ensures FileName(url) <==> Resolved(url) == url
  {
  }

  function Repeat(n: nat): string {
    if n == 0 then "" else ['/'] + Repeat(n - 1)
  }

  lemma {:induction false} SlashesOf(n: nat, p: string)
    requires p == "" || p[0] != '/'
    ensures Slashes(Repeat(n) + p) == n && (Repeat(n) + p)[n..] == p
  {
    if n == 0 {
      assert Repeat(0) + p == p;
    } else {
      var url := Repeat(n) + p;
      assert url == ['/'] + (Repeat(n - 1) + p);
      assert url[1..] == Repeat(n - 1) + p;
      SlashesOf(n - 1, p);
      assert url[n..] == url[1..][n - 1..];
    }
  }

  /** Whatever leading slashes it has, a path to a directory stands for its index page, any other for itself. */
  lemma ResolvedAs(n: nat, p: string)
    requires p == "" || p[0] != '/'
    ensures Resolved(Repeat(n) + p) == if p == "" || p[|p| - 1] == '/' then p + "index.html" else p
  {
    SlashesOf(n, p);
  }

  /** A long name's key shows its beginning and its digest, and is short itself. */
  lemma LongKey(digest: Digest, name: string)
    requires |name| >= MAX_FILENAME && |digest(name)| == DIGEST_LEN
    ensures var k := ShortName(digest, name);
            && |k| == 75 && |k| < MAX_FILENAME
            && k[..2] == "/+" && k[2..34] == name[..32] && k[34] == '-' && k[35..] == digest(name)
  {
  }

  /** A file record takes a key of another kind only when the name itself is such a key, and short. */
  lemma StrayKeyIff(digest: Digest, name: string)
    ensures OwnershipKey(ShortName(digest, name)) <==> |name| < MAX_FILENAME && OwnershipKey(name)
    ensures Bookkeeping(ShortName(digest, name)) <==> |name| < MAX_FILENAME && Bookkeeping(name)
  {
  }

  /** A record stored under a name as it is, as links and restores do, is found by requests for the name
      exactly when the name is short. */
  lemma RawKeyFoundIff(digest: Digest, name: string)
    requires FileName(name)
    ensures ShortName(digest, name) == name <==> |name| < MAX_FILENAME
  {
  }

  /** Two names share a record only when one of them is, letter for letter, the derived key of the other. */
  lemma SharedKeyIff(digest: Digest, a: string, b: string)
    requires NoCollision(digest, a, b)
    ensures a != b && ShortName(digest, a) == ShortName(digest, b) <==>
              || (|a| < MAX_FILENAME <= |b| && a == ShortName(digest, b))
              || (|b| < MAX_FILENAME <= |a| && b == ShortName(digest, a))
  {
    if |a| >= MAX_FILENAME && |b| >= MAX_FILENAME {
      var x, y := ShortName(digest, a), ShortName(digest, b);
      var n := 2 + TRUNCATE_KEY_LEN + 1;
      assert x[n..] == digest(a) && y[n..] == digest(b);
    }
  }

  /** So requests never mix records: different names have different keys, none of another kind. */
  lemma RequestsKeepApart(digest: Digest, url: string, other: string)
    requires NoCollision(digest, Resolved(url), Resolved(other))
    ensures ShortName(digest, Resolved(url)) == ShortName(digest, Resolved(other)) <==> Resolved(url) == Resolved(other)
    ensures !OwnershipKey(ShortName(digest, Resolved(url))) && !Bookkeeping(ShortName(digest, Resolved(url)))
  {
    ResolvedIsName(url);
    ResolvedIsName(other);
    SharedKeyIff(digest, Resolved(url), Resolved(other));
    StrayKeyIff(digest, Resolved(url));
  }
}
