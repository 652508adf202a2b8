/** The object store as one map from keys to objects, and the in-memory adapter, which is that map. */
module ObjectStore {
  import opened Wrappers
  import opened Sorting
  import opened Strings

  datatype Descriptor = Descriptor(key: string, size: int, sha256: string, mediaType: string, modifiedAt: int)

  datatype Stored = Stored(content: string, descriptor: Descriptor)

  type Objects = map<string, Stored>

  datatype PutResult = PutResult(descriptor: Descriptor, created: bool)

  datatype StoreError = InvalidArgument | NotFound | Integrity | Unavailable | OsError

  // ---------- checks on arguments ----------

  predicate KeyChar(c: char) { 'a' <= c <= 'z' || '0' <= c <= '9' || c == '/' || c == '_' || c == '-' }

  predicate ValidKey(key: string) {
    && 1 <= |key| <= 512
    && (forall i :: 0 <= i < |key| ==> KeyChar(key[i]))
    && ('a' <= key[0] <= 'z' || '0' <= key[0] <= '9')
    && forall i :: 0 <= i < |key| - 1 ==> !(key[i] == '/' && key[i + 1] == '/')
  }

  predicate ValidDescriptor(d: Descriptor) { d.size >= 0 && IsHex(d.sha256, 64) && 1 <= |d.mediaType| <= 160 }

  // Same immutable facts; the time may differ.
  predicate SameObject(a: Descriptor, b: Descriptor) {
    a.key == b.key && a.size == b.size && a.sha256 == b.sha256 && a.mediaType == b.mediaType
  }

  predicate VerifiedDescriptor(actual: Descriptor, expected: Descriptor) {
    ValidDescriptor(actual) && SameObject(actual, expected)
  }

  function CheckPut(hash: string -> string, key: string, content: string, sha256: string, mediaType: string): Option<StoreError> {
    if !ValidKey(key) then Some(InvalidArgument)
    else if sha256 != hash(content) || !ValidDescriptor(Descriptor(key, |content|, sha256, mediaType, 0)) then Some(Integrity)
    else None
  }

  predicate ValidPrefix(prefix: string) {
    && prefix != "" && ValidKey(StripSlashes(prefix))
    && forall i :: 0 <= i < |prefix| - 1 ==> !(prefix[i] == '/' && prefix[i + 1] == '/')
  }

  predicate ValidListing(prefix: string, limit: int, after: Option<string>) {
    && ValidPrefix(prefix)
    && 1 <= limit <= 10_000
    && (after.Some? ==> ValidKey(after.value) && prefix <= after.value)
  }

  // ---------- the simple map ----------

  function Put(m: Objects, hash: string -> string, key: string, content: string, sha256: string, mediaType: string, now: int)
      : (Objects, Result<PutResult, StoreError>)
  {
    var descriptor := Descriptor(key, |content|, sha256, mediaType, now);
    match CheckPut(hash, key, content, sha256, mediaType)
    case Some(e) => (m, Failure(e))
    case None =>
      if key !in m then (m[key := Stored(content, descriptor)], Success(PutResult(descriptor, true)))
      else if !VerifiedDescriptor(m[key].descriptor, descriptor) || m[key].content != content then (m, Failure(Integrity))
      else (m, Success(PutResult(m[key].descriptor, false)))
  }

  function Stat(m: Objects, key: string): Result<Descriptor, StoreError> {
    if !ValidKey(key) then Failure(InvalidArgument)
    else if key !in m then Failure(NotFound)
    else Success(m[key].descriptor)
  }

  function Remaining(keys: set<string>, prefix: string, after: Option<string>): set<string> {
    set key | key in keys && prefix <= key && (after.Some? ==> Less(after.value, key))
  }

  function Take(xs: seq<string>, n: nat): (r: seq<string>)
    ensures |r| == (if n <= |xs| then n else |xs|) && r <= xs
  {
    if n <= |xs| then xs[..n] else xs
  }

  // The pieces a stream yields, all of the chunk size but the last.
  function Chunks(content: string, size: nat): (r: seq<string>)
    requires size > 0
    ensures Concat(r) == content && forall c :: c in r ==> 0 < |c| <= size
    ensures forall i :: 0 <= i < |r| - 1 ==> |r[i]| == size
    decreases |content|
  {
    if content == "" then []
    else if |content| <= size then [content]
    else [content[..size]] + Chunks(content[size..], size)
  }

  // The first `limit` keys with the prefix after the cursor, in order.
  function Listing(keys: set<string>, prefix: string, limit: nat, after: Option<string>): seq<string> {
    Take(Sorted(Remaining(keys, prefix, after)), limit)
  }

  /** What a put answers: which arguments it refuses, and when it meets an object that is not the one put. */
  lemma PutAnswers(m: Objects, hash: string -> string, key: string, content: string, sha256: string, mediaType: string, now: int)
    ensures var r := Put(m, hash, key, content, sha256, mediaType, now).1;
            && (r == Failure(InvalidArgument) <==> !ValidKey(key))
            && (r.Success? <==>
                  && ValidKey(key) && sha256 == hash(content) && IsHex(sha256, 64) && 1 <= |mediaType| <= 160
                  && (key in m ==>
                        && m[key].content == content && m[key].descriptor.key == key && m[key].descriptor.size == |content|
                        && m[key].descriptor.sha256 == sha256 && m[key].descriptor.mediaType == mediaType))
            && (r.Failure? ==> r.error == InvalidArgument || r.error == Integrity)
            && (r.Success? && key !in m ==> r.value == PutResult(Descriptor(key, |content|, sha256, mediaType, now), true))
  {
    hide ValidKey, IsHex;
  }

  /** The keys that a store takes: up to 512 of these characters, a letter or digit first, and no empty part before the end. */
  lemma AcceptableKeys(key: string)
    ensures ValidKey(key) <==>
              && 1 <= |key| <= 512 && key[0] in "abcdefghijklmnopqrstuvwxyz0123456789"
              && (forall c :: c in key ==> c in "abcdefghijklmnopqrstuvwxyz0123456789/_-")
              && !exists a, b :: key == a + "//" + b
  {
    forall c ensures ('a' <= c <= 'z' || '0' <= c <= '9') <==> c in "abcdefghijklmnopqrstuvwxyz0123456789" {
      LetterOrDigit(c);
    }
    forall c ensures KeyChar(c) <==> c in "abcdefghijklmnopqrstuvwxyz0123456789/_-" {
      KeyCharacter(c);
    }
    assert (forall i :: 0 <= i < |key| ==> KeyChar(key[i])) <==> forall c :: c in key ==> KeyChar(c);
    DoubleSlash(key);
    hide KeyChar;
  }

  lemma LetterOrDigit(c: char)
    ensures ('a' <= c <= 'z' || '0' <= c <= '9') <==> c in "abcdefghijklmnopqrstuvwxyz0123456789"
  {
    FirstLetter(c);
    LastLetter(c);
    DecimalDigit(c);
    assert "abcdefghijklmnopqrstuvwxyz0123456789" == "abcdefghijklm" + "nopqrstuvwxyz" + "0123456789";
  }

  lemma FirstLetter(c: char)
    ensures 'a' <= c <= 'm' <==> c in "abcdefghijklm"
  {
    if 'a' <= c <= 'm' {
      assert "abcdefghijklm"[c as int - 'a' as int] == c;
    }
  }

  lemma LastLetter(c: char)
    ensures 'n' <= c <= 'z' <==> c in "nopqrstuvwxyz"
  {
    if 'n' <= c <= 'z' {
      assert "nopqrstuvwxyz"[c as int - 'n' as int] == c;
    }
  }

  lemma DecimalDigit(c: char)
    ensures '0' <= c <= '9' <==> c in "0123456789"
  {
    if '0' <= c <= '9' {
      assert "0123456789"[c as int - '0' as int] == c;
    }
  }

  lemma KeyCharacter(c: char)
    ensures KeyChar(c) <==> c in "abcdefghijklmnopqrstuvwxyz0123456789/_-"
  {
    LetterOrDigit(c);
    assert "abcdefghijklmnopqrstuvwxyz0123456789/_-" == "abcdefghijklmnopqrstuvwxyz0123456789" + "/_-";
    assert c in "/_-" <==> c == '/' || c == '_' || c == '-';
  }

  lemma DoubleSlash(key: string)
    ensures (exists a, b :: key == a + "//" + b) <==> exists i :: 0 <= i < |key| - 1 && key[i] == '/' && key[i + 1] == '/'
  {
    if a, b :| key == a + "//" + b {
      assert key[|a|] == '/' && key[|a| + 1] == '/';
    }
    if i :| 0 <= i < |key| - 1 && key[i] == '/' && key[i + 1] == '/' {
      assert key == key[..i] + "//" + key[i + 2..];
    }
  }

  // The key has the prefix and comes after the cursor.
  predicate Matches(keys: set<string>, prefix: string, after: Option<string>, key: string) {
    key in keys && prefix <= key && (after.None? || Less(after.value, key))
  }

  /** A listing is the ascending list of keys that match, all of them, or as many of the first as the limit allows. */
  lemma ListingIs(keys: set<string>, prefix: string, limit: nat, after: Option<string>, r: seq<string>)
    ensures r == Listing(keys, prefix, limit, after) <==>
              && Ascending(r) && |r| <= limit && (forall key :: key in r ==> Matches(keys, prefix, after, key))
              && forall key :: Matches(keys, prefix, after, key) && key !in r ==> |r| == limit && forall other :: other in r ==> Less(other, key)
  {
    var all := Sorted(Remaining(keys, prefix, after));
    assert forall key :: key in all <==> Matches(keys, prefix, after, key);
    hide Sorted, Remaining, Matches, Less;
    if r == Listing(keys, prefix, limit, after) {
      ListedFirst(all, limit);
    } else if Ascending(r) && |r| <= limit && (forall key :: key in r ==> key in all)
              && forall key :: key in all && key !in r ==> |r| == limit && forall other :: other in r ==> Less(other, key) {
      FirstListed(all, limit, r);
    }
  }

  lemma ListedFirst(all: seq<string>, limit: nat)
    requires Ascending(all)
    ensures var r := Take(all, limit);
            && Ascending(r) && |r| <= limit && (forall key :: key in r ==> key in all)
            && forall key :: key in all && key !in r ==> |r| == limit && forall other :: other in r ==> Less(other, key)
  {
    hide Less;
    var r := Take(all, limit);
    forall key, other | key in all && key !in r && other in r ensures |r| == limit && Less(other, key) {
      var i :| 0 <= i < |all| && all[i] == key;
      var j :| 0 <= j < |r| && r[j] == other;
      assert j < i;
    }
    forall key | key in all && key !in r ensures |r| == limit {
      var i :| 0 <= i < |all| && all[i] == key;
    }
  }

  lemma FirstListed(all: seq<string>, limit: nat, r: seq<string>)
    requires Ascending(all) && Ascending(r) && |r| <= limit && forall key :: key in r ==> key in all
    requires forall key :: key in all && key !in r ==> |r| == limit && forall other :: other in r ==> Less(other, key)
    ensures r == Take(all, limit)
  {
    FirstsAgree(all, r);
    hide Less;
    assert |r| <= |all| && r == all[..|r|];
    if |r| < |all| {
      NotBefore(all, |r|);
    }
  }

  lemma NotBefore(all: seq<string>, n: nat)
    requires Ascending(all) && n < |all|
    ensures all[n] in all && all[n] !in all[..n]
  {
    hide Ascending;
    AscendingDistinct(all);
  }

  // An ascending list of members, none missing before its end, is a prefix.
  lemma {:induction false} FirstsAgree(all: seq<string>, r: seq<string>)
    requires Ascending(all) && Ascending(r) && forall key :: key in r ==> key in all
    requires forall key :: key in all && key !in r ==> forall other :: other in r ==> Less(other, key)
    ensures r <= all
    decreases |r|
  {
    hide Less;
    if r != [] {
      assert r[0] in r && all != [];
      FirstIsFirst(all, r);
      TailsOf(all, r);
      FirstsAgree(all[1..], r[1..]);
      assert r == [r[0]] + r[1..] && all == [all[0]] + all[1..];
    }
  }

  lemma FirstIsFirst(all: seq<string>, r: seq<string>)
    requires Ascending(all) && Ascending(r) && r != [] && all != [] && forall key :: key in r ==> key in all
    requires forall key :: key in all && key !in r ==> forall other :: other in r ==> Less(other, key)
    ensures r[0] == all[0]
  {
    hide Less;
    assert r[0] in r && all[0] in all;
    if r[0] != all[0] {
      var i :| 0 <= i < |all| && all[i] == r[0];
      assert Less(all[0], r[0]);
      if all[0] in r {
        var j :| 0 <= j < |r| && r[j] == all[0];
        assert Less(r[0], all[0]);
      }
      LessTransitive(all[0], r[0], all[0]);
      LessIrreflexive(all[0]);
    }
  }

  lemma TailsOf(all: seq<string>, r: seq<string>)
    requires Ascending(all) && Ascending(r) && r != [] && all != [] && r[0] == all[0] && forall key :: key in r ==> key in all
    requires forall key :: key in all && key !in r ==> forall other :: other in r ==> Less(other, key)
    ensures Ascending(all[1..]) && Ascending(r[1..]) && forall key :: key in r[1..] ==> key in all[1..]
    ensures forall key :: key in all[1..] && key !in r[1..] ==> forall other :: other in r[1..] ==> Less(other, key)
  {
    hide Less;
    LessIrreflexive(all[0]);
    forall key | key in r[1..] ensures key in all[1..] {
      var j :| 0 <= j < |r[1..]| && r[1..][j] == key;
      assert Less(r[0], r[j + 1]);
      assert key in all && key != all[0];
    }
    forall key | key in all[1..] && key !in r[1..] ensures key in all && key !in r {
      var i :| 0 <= i < |all[1..]| && all[1..][i] == key;
      assert Less(all[0], all[i + 1]);
    }
  }

  /** Storing creates at most one object, keeps all others, and never replaces one. */
  lemma PutIsWriteOnce(m: Objects, hash: string -> string, key: string, content: string, sha256: string, mediaType: string, now: int)
    ensures var (m', r) := Put(m, hash, key, content, sha256, mediaType, now);
            && (forall k :: k in m ==> k in m' && m'[k] == m[k])
            && m'.Keys <= m.Keys + {key}
            && (r.Success? ==> key in m' && m'[key].content == content && m'[key].descriptor.sha256 == hash(content)
                               && m'[key].descriptor == r.value.descriptor && (r.value.created <==> key !in m))
            && (r.Failure? ==> m' == m)
  {
    assert CheckPut(hash, key, content, sha256, mediaType).None? ==> sha256 == hash(content);
  }

  /** Putting the same bytes twice is putting them once. */
  lemma PutIdempotent(m: Objects, hash: string -> string, key: string, content: string, sha256: string, mediaType: string,
                      now: int, later: int)
    requires Put(m, hash, key, content, sha256, mediaType, now).1.Success?
    ensures var m' := Put(m, hash, key, content, sha256, mediaType, now).0;
            Put(m', hash, key, content, sha256, mediaType, later)
            == (m', Success(PutResult(Put(m, hash, key, content, sha256, mediaType, now).1.value.descriptor, false)))
  {
    hide ValidKey, IsHex;
  }

  // ---------- the in-memory adapter ----------

  class InMemoryObjectStore {
    var objects: Objects
    var failPut: bool
    var failDelete: bool
    const hash: string -> string

    constructor (hash: string -> string)
      ensures objects == map[] && !failPut && !failDelete && this.hash == hash
    {
      objects, failPut, failDelete := map[], false, false;
      this.hash := hash;
    }

    method PutObject(key: string, content: string, sha256: string, mediaType: string, now: int)
        returns (r: Result<PutResult, StoreError>)
      modifies this`objects
      ensures !failPut ==> (objects, r) == Put(old(objects), hash, key, content, sha256, mediaType, now)
      ensures failPut ==> objects == old(objects) && r.Failure?
                          && r.error == CheckPut(hash, key, content, sha256, mediaType).GetOr(Unavailable)
    {
      var refused := CheckPut(hash, key, content, sha256, mediaType);
      if refused.Some? {
        return Failure(refused.value);
      }
      if failPut {
        return Failure(Unavailable);
      }
      var descriptor := Descriptor(key, |content|, sha256, mediaType, now);
      if key in objects {
        var existing := objects[key];
        if !VerifiedDescriptor(existing.descriptor, descriptor) || existing.content != content {
          return Failure(Integrity);
        }
        return Success(PutResult(existing.descriptor, false));
      }
      objects := objects[key := Stored(content, descriptor)];
      return Success(PutResult(descriptor, true));
    }

    method StatObject(key: string) returns (r: Result<Descriptor, StoreError>)
      ensures r == Stat(objects, key)
    {
      if !ValidKey(key) {
        return Failure(InvalidArgument);
      }
      if key !in objects {
        return Failure(NotFound);
      }
      return Success(objects[key].descriptor);
    }

    method OpenObject(key: string, chunkBytes: int) returns (r: Result<(Descriptor, seq<string>), StoreError>)
      ensures chunkBytes <= 0 ==> r == Failure(InvalidArgument)
      ensures chunkBytes > 0 && Stat(objects, key).Failure? ==> r == Failure(Stat(objects, key).error)
      ensures chunkBytes > 0 && Stat(objects, key).Success? ==>
                r.Success? && r.value.0 == objects[key].descriptor && Concat(r.value.1) == objects[key].content
    {
      if chunkBytes <= 0 {
        return Failure(InvalidArgument);
      }
      var found := StatObject(key);
      if found.Failure? {
        return Failure(found.error);
      }
      return Success((found.value, Chunks(objects[key].content, chunkBytes)));
    }

    method DeleteObject(key: string) returns (r: Result<(), StoreError>)
      modifies this`objects
      ensures ValidKey(key) && !failDelete ==> r == Success(()) && objects == old(objects) - {key}
      ensures !ValidKey(key) || failDelete ==> r.Failure? && r.error != NotFound && objects == old(objects)
    {
      if !ValidKey(key) {
        return Failure(InvalidArgument);
      }
      if failDelete {
        return Failure(Unavailable);
      }
      objects := objects - {key};
      return Success(());
    }

    method ListKeys(prefix: string, limit: int, after: Option<string>) returns (r: Result<seq<string>, StoreError>)
      ensures r.Success? <==> ValidListing(prefix, limit, after)
      ensures r.Success? ==> r.value == Listing(objects.Keys, prefix, limit, after)
    {
      if !ValidListing(prefix, limit, after) {
        return Failure(InvalidArgument);
      }
      return Success(Take(Sorted(Remaining(objects.Keys, prefix, after)), limit));
    }
  }

  // ---------- listing page by page from an S3 server ----------

  datatype ListRequest = ListRequest(prefix: string, maxKeys: nat, startAfter: Option<string>, token: Option<string>)

  datatype ListPage = ListPage(contents: seq<string>, truncated: bool, nextToken: Option<string>)

  // What the server promises about a page: some of the next keys in order, no more than asked for, all
  // of them unless it is truncated; a token, if any, continues after them, and pages do not stay empty
  // for ever.
  ghost predicate ServesPage(server: ListRequest -> ListPage, resume: string -> Option<string>, rank: Option<string> -> nat,
                             keys: set<string>, request: ListRequest) {
    var after := if request.token.Some? then resume(request.token.value) else request.startAfter;
    var all := Sorted(Remaining(keys, request.prefix, after));
    var page := server(request);
    && page.contents <= all && |page.contents| <= request.maxKeys
    && (!page.truncated ==> page.contents == all)
    && (page.truncated && HasToken(page) ==> resume(page.nextToken.value) == LastOr(page.contents, after))
    && (page.truncated && HasToken(page) && page.contents == [] ==> rank(page.nextToken) < rank(request.token))
  }

  function LastOr(listed: seq<string>, after: Option<string>): Option<string> {
    if listed == [] then after else Some(listed[|listed| - 1])
  }

  predicate HasToken(page: ListPage) { page.nextToken.Some? && page.nextToken.value != "" }

  ghost predicate Serves(server: ListRequest -> ListPage, resume: string -> Option<string>, rank: Option<string> -> nat, keys: set<string>) {
    forall request: ListRequest :: request.maxKeys > 0 ==> ServesPage(server, resume, rank, keys, request)
  }

  // A server whose token is the last key it listed.
  function SimplePage(keys: set<string>, request: ListRequest): ListPage {
    var all := Sorted(Remaining(keys, request.prefix, if request.token.Some? then request.token else request.startAfter));
    var contents := Take(all, request.maxKeys);
    ListPage(contents, |contents| < |all|, LastOr(contents, None))
  }

  /** The simple server serves, so what is said of all servers is said of some. */
  lemma SimpleServerServes(keys: set<string>)
    ensures Serves(request => SimplePage(keys, request), token => Some(token), token => 0, keys)
  {
    hide Sorted, Remaining;
  }

  // In an ascending list, the members after position n - 1 are those from position n on.
  lemma AfterPosition(all: seq<string>, n: nat, i: nat)
    requires Ascending(all) && 0 < n <= |all| && i < |all|
    ensures Less(all[n - 1], all[i]) <==> n <= i
  {
    LessIrreflexive(all[n - 1]);
    if i < n - 1 && Less(all[n - 1], all[i]) {
      LessTransitive(all[n - 1], all[i], all[n - 1]);
    }
  }

  lemma RestMembers(keys: set<string>, prefix: string, after: Option<string>, all: seq<string>, n: nat, key: string)
    requires Ascending(all) && 0 < n <= |all|
    requires forall k :: k in all <==> k in Remaining(keys, prefix, after)
    ensures key in all[n..] <==> key in Remaining(keys, prefix, Some(all[n - 1]))
  {
    assert all[n - 1] in all;
    if key in all[n..] {
      var i :| 0 <= i < |all[n..]| && all[n..][i] == key;
      assert all[n + i] == key && key in all;
      AfterPosition(all, n, n + i);
    }
    if key in Remaining(keys, prefix, Some(all[n - 1])) {
      if after.Some? {
        LessTransitive(after.value, all[n - 1], key);
      }
      assert key in all;
      var i :| 0 <= i < |all| && all[i] == key;
      AfterPosition(all, n, i);
      assert all[n..][i - n] == key;
    }
  }

  /** What remains after a listed prefix is the rest of the list. */
  lemma RemainingAfter(keys: set<string>, prefix: string, after: Option<string>, n: nat)
    requires 0 < n <= |Sorted(Remaining(keys, prefix, after))|
    ensures var all := Sorted(Remaining(keys, prefix, after));
            Sorted(Remaining(keys, prefix, Some(all[n - 1]))) == all[n..]
  {
    hide Remaining, Less;
    var all := Sorted(Remaining(keys, prefix, after));
    var next := Remaining(keys, prefix, Some(all[n - 1]));
    forall key ensures key in all[n..] <==> key in next {
      RestMembers(keys, prefix, after, all, n, key);
    }
    assert (set x | x in all[n..]) == next;
    AscendingIsSorted(all[n..]);
  }

  // The next page, appended, is again a prefix of the whole list.
  lemma NextPage(server: ListRequest -> ListPage, resume: string -> Option<string>, rank: Option<string> -> nat, keys: set<string>,
                 request: ListRequest, after: Option<string>, listed: seq<string>)
    requires ServesPage(server, resume, rank, keys, request)
    requires listed <= Sorted(Remaining(keys, request.prefix, after))
    requires Continues(resume, request.token, listed, after) && (request.token.None? ==> request.startAfter == after)
    ensures var page, all := server(request), Sorted(Remaining(keys, request.prefix, after));
            && listed + page.contents <= all && |page.contents| <= request.maxKeys
            && (!page.truncated ==> listed + page.contents == all)
            && (page.truncated && HasToken(page) ==>
                && Continues(resume, page.nextToken, listed + page.contents, after)
                && (page.contents == [] ==> rank(page.nextToken) < rank(request.token)))
  {
    var all, page := Sorted(Remaining(keys, request.prefix, after)), server(request);
    RestAhead(keys, request.prefix, after, listed);
    hide Sorted, Remaining;
    var from := if request.token.Some? then resume(request.token.value) else request.startAfter;
    assert from == LastOr(listed, after);
    PrefixOfRest(listed, page.contents, all);
    LastOfBoth(listed, page.contents, after);
  }

  // What lies ahead of a listed prefix.
  lemma RestAhead(keys: set<string>, prefix: string, after: Option<string>, listed: seq<string>)
    requires listed <= Sorted(Remaining(keys, prefix, after))
    ensures Sorted(Remaining(keys, prefix, LastOr(listed, after))) == Sorted(Remaining(keys, prefix, after))[|listed|..]
  {
    hide Sorted, Remaining;
    if listed != [] {
      RemainingAfter(keys, prefix, after, |listed|);
    }
  }

  lemma LastOfBoth(listed: seq<string>, page: seq<string>, after: Option<string>)
    ensures LastOr(page, LastOr(listed, after)) == LastOr(listed + page, after)
    ensures page == [] ==> listed + page == listed
  {
  }

  lemma PrefixOfRest(listed: seq<string>, page: seq<string>, all: seq<string>)
    requires listed <= all && page <= all[|listed|..]
    ensures listed + page <= all && (page == all[|listed|..] ==> listed + page == all)
  {
    assert all == listed + all[|listed|..];
    assert all[|listed|..] == page + all[|listed|..][|page|..];
  }

  // The token, or its absence, continues after what is listed.
  ghost predicate Continues(resume: string -> Option<string>, token: Option<string>, listed: seq<string>, after: Option<string>) {
    if token.None? then listed == [] else resume(token.value) == LastOr(listed, after)
  }

  // One request to the server.
  method FetchPage(server: ListRequest -> ListPage, ghost resume: string -> Option<string>, ghost rank: Option<string> -> nat,
                   ghost keys: set<string>, request: ListRequest, ghost after: Option<string>, ghost listed: seq<string>)
      returns (page: ListPage)
    requires Serves(server, resume, rank, keys) && request.maxKeys > 0
    requires listed <= Sorted(Remaining(keys, request.prefix, after))
    requires Continues(resume, request.token, listed, after) && (request.token.None? ==> request.startAfter == after)
    ensures page == server(request)
    ensures |page.contents| <= request.maxKeys && listed + page.contents <= Sorted(Remaining(keys, request.prefix, after))
    ensures !page.truncated ==> listed + page.contents == Sorted(Remaining(keys, request.prefix, after))
    ensures page.truncated && HasToken(page) ==>
              && Continues(resume, page.nextToken, listed + page.contents, after)
              && (page.contents == [] ==> rank(page.nextToken) < rank(request.token))
  {
    hide Sorted, Remaining, ServesPage, Continues;
    page := server(request);
    NextPage(server, resume, rank, keys, request, after, listed);
  }

  // ---------- the requests of a listing ----------

  function ListedBy(server: ListRequest -> ListPage, asked: seq<ListRequest>): seq<string> {
    if asked == [] then [] else ListedBy(server, asked[..|asked| - 1]) + server(asked[|asked| - 1]).contents
  }

  // The request that follows these: for what is still missing, from where the last page ended.
  function RequestAfter(server: ListRequest -> ListPage, prefix: string, limit: nat, after: Option<string>, asked: seq<ListRequest>): ListRequest {
    var missing := if |ListedBy(server, asked)| <= limit then limit - |ListedBy(server, asked)| else 0;
    ListRequest(prefix, if missing < 1_000 then missing else 1_000, if asked == [] then after else None,
                if asked == [] then None else server(asked[|asked| - 1]).nextToken)
  }

  // Each request follows the ones before it, all of whose pages are truncated and have a token.
  ghost predicate IsListing(server: ListRequest -> ListPage, prefix: string, limit: nat, after: Option<string>, asked: seq<ListRequest>) {
    && (forall i :: 0 <= i < |asked| ==> asked[i] == RequestAfter(server, prefix, limit, after, asked[..i]))
    && forall i :: 0 <= i < |asked| - 1 ==> server(asked[i]).truncated && HasToken(server(asked[i]))
  }

  lemma AskedMore(server: ListRequest -> ListPage, prefix: string, limit: nat, after: Option<string>, asked: seq<ListRequest>)
    requires IsListing(server, prefix, limit, after, asked)
    requires asked != [] ==> server(asked[|asked| - 1]).truncated && HasToken(server(asked[|asked| - 1]))
    ensures var request := RequestAfter(server, prefix, limit, after, asked);
            && IsListing(server, prefix, limit, after, asked + [request])
            && ListedBy(server, asked + [request]) == ListedBy(server, asked) + server(request).contents
  {
    hide RequestAfter, HasToken, ListedBy, IsListing;
    var request := RequestAfter(server, prefix, limit, after, asked);
    ListingMore(server, prefix, limit, after, asked);
    ListedMore(server, asked, request);
  }

  lemma ListedMore(server: ListRequest -> ListPage, asked: seq<ListRequest>, request: ListRequest)
    ensures ListedBy(server, asked + [request]) == ListedBy(server, asked) + server(request).contents
  {
    assert (asked + [request])[..|asked|] == asked;
  }

  lemma ListingMore(server: ListRequest -> ListPage, prefix: string, limit: nat, after: Option<string>, asked: seq<ListRequest>)
    requires IsListing(server, prefix, limit, after, asked)
    requires asked != [] ==> server(asked[|asked| - 1]).truncated && HasToken(server(asked[|asked| - 1]))
    ensures IsListing(server, prefix, limit, after, asked + [RequestAfter(server, prefix, limit, after, asked)])
  {
    hide RequestAfter, HasToken;
    var more := asked + [RequestAfter(server, prefix, limit, after, asked)];
    forall i | 0 <= i < |more| ensures more[i] == RequestAfter(server, prefix, limit, after, more[..i]) {
      assert more[..i] == if i < |asked| then asked[..i] else asked;
    }
    forall i | 0 <= i < |more| - 1 ensures server(more[i]).truncated && HasToken(server(more[i])) {
      assert more[i] == asked[i];
    }
  }

  /**
   * The pages add up to the simple listing, whatever sizes the server chooses for them; the listing fails
   * exactly on the page of the last request made being truncated without a token.
   */
  method ListKeysPaged(server: ListRequest -> ListPage, ghost resume: string -> Option<string>, ghost rank: Option<string> -> nat,
                       ghost keys: set<string>, prefix: string, limit: int, after: Option<string>)
      returns (r: Result<seq<string>, StoreError>, ghost asked: seq<ListRequest>)
    requires Serves(server, resume, rank, keys)
    ensures !ValidListing(prefix, limit, after) ==> r == Failure(InvalidArgument) && asked == []
    ensures r.Success? ==> r.value == Listing(keys, prefix, limit, after)
    ensures ValidListing(prefix, limit, after) ==> limit >= 1 && IsListing(server, prefix, limit, after, asked) && asked != []
    ensures ValidListing(prefix, limit, after) ==>
              (r.Failure? <==> server(asked[|asked| - 1]).truncated && !HasToken(server(asked[|asked| - 1])))
              && (r.Failure? ==> r.error == Integrity)
  {
    ValidListingLimit(prefix, limit, after);
    hide Sorted, Remaining, Serves, ValidListing, Take, HasToken, IsListing, ListedBy;
    asked := [];
    if !ValidListing(prefix, limit, after) {
      return Failure(InvalidArgument), asked;
    }
    ghost var all := Sorted(Remaining(keys, prefix, after));
    var listed: seq<string> := [];
    var continuation: Option<string> := None;
    NothingAsked(server, prefix, limit, after);
    while |listed| < limit
      invariant listed <= all && |listed| <= limit
      invariant Continues(resume, continuation, listed, after)
      invariant IsListing(server, prefix, limit, after, asked) && listed == ListedBy(server, asked)
      invariant if asked == [] then continuation == None
                else server(asked[|asked| - 1]).truncated && HasToken(server(asked[|asked| - 1])) && continuation == server(asked[|asked| - 1]).nextToken
      invariant asked == [] ==> listed == []
      decreases limit - |listed|, rank(continuation)
    {
      var count := if limit - |listed| < 1_000 then limit - |listed| else 1_000;
      TokenIsSome(server, asked);
      var request := ListRequest(prefix, count, if continuation.None? then after else None, continuation);
      assert request == RequestAfter(server, prefix, limit, after, asked);
      AskedMore(server, prefix, limit, after, asked);
      var page := FetchPage(server, resume, rank, keys, request, after, listed);
      listed := listed + page.contents;
      asked := asked + [request];
      if !page.truncated {
        break;
      }
      if !HasToken(page) {
        return Failure(Integrity), asked;
      }
      continuation := page.nextToken;
    }
    TakePrefix(listed, all, limit);
    return Success(Take(listed, limit)), asked;
  }

  lemma NothingAsked(server: ListRequest -> ListPage, prefix: string, limit: nat, after: Option<string>)
    ensures IsListing(server, prefix, limit, after, []) && ListedBy(server, []) == []
  {
  }

  lemma TokenIsSome(server: ListRequest -> ListPage, asked: seq<ListRequest>)
    ensures asked != [] && HasToken(server(asked[|asked| - 1])) ==> server(asked[|asked| - 1]).nextToken.Some?
  {
  }

  lemma ValidListingLimit(prefix: string, limit: int, after: Option<string>)
    ensures ValidListing(prefix, limit, after) ==> limit >= 1
  {
  }

  lemma TakePrefix(listed: seq<string>, all: seq<string>, limit: nat)
    requires listed <= all && (|listed| == limit || (listed == all && |listed| <= limit))
    ensures Take(listed, limit) == Take(all, limit)
  {
  }
}
