/** The filesystem adapter: two files per object, refining the simple map. */
module FilesystemStore {
  import opened Wrappers
  import opened Sorting
  import opened ObjectStore
  import opened Strings

  datatype File = File(bytes: string, mtime: int)

  datatype Sidecar = Sidecar(size: int, sha256: string, mediaType: string)

  // The JSON form of the metadata file.
  datatype Codec = Codec(encode: Sidecar -> string, decode: string -> Option<Sidecar>)

  ghost predicate RoundTrips(codec: Codec) { forall s :: codec.decode(codec.encode(s)) == Some(s) }

  const METADATA_SUFFIX := ".metadata.json"
  const UPLOAD_PREFIX := ".upload-"

  // root / Path(*key.split("/")): an empty last part is dropped.
  function PathOf(key: string): string { if EndsInSlash(key) then key[..|key| - 1] else key }

  predicate EndsInSlash(key: string) { key != "" && key[|key| - 1] == '/' }

  // The path of an object.
  predicate IsPath(path: string) { ValidKey(path) && !EndsInSlash(path) }

  lemma PathsOfKeys(key: string)
    requires ValidKey(key)
    ensures key != "" && IsPath(PathOf(key)) && (EndsInSlash(key) <==> PathOf(key) != key)
  {
    assert forall i :: 0 <= i < |PathOf(key)| ==> PathOf(key)[i] == key[i];
  }

  function MetadataPath(path: string): string { path + METADATA_SUFFIX }

  lemma MetadataPathInjective(a: string, b: string)
    requires MetadataPath(a) == MetadataPath(b)
    ensures a == b
  {
    assert a == MetadataPath(a)[..|a|] && b == MetadataPath(b)[..|b|];
  }

  lemma MetadataPathIsNoKey(path: string)
    ensures !IsPath(MetadataPath(path))
  {
    assert MetadataPath(path)[|path|] == '.' && !KeyChar('.');
  }

  predicate EndsWith(s: string, suffix: string) { |suffix| <= |s| && s[|s| - |suffix|..] == suffix }

  // The part after the last slash.
  function BaseName(path: string): string
  {
    if path == "" || path[|path| - 1] == '/' then "" else BaseName(path[..|path| - 1]) + [path[|path| - 1]]
  }

  lemma {:induction false} BaseNameChars(path: string)
    ensures forall c :: c in BaseName(path) ==> c in path
  {
    if path != "" && path[|path| - 1] != '/' {
      BaseNameChars(path[..|path| - 1]);
    }
  }

  // The directories that must exist for a path.
  function Ancestors(path: string): set<string> { set i | 0 <= i < |path| && path[i] == '/' :: path[..i] }

  // Files that a listing shows.
  predicate Listed(path: string) { !EndsWith(path, METADATA_SUFFIX) && !(UPLOAD_PREFIX <= BaseName(path)) }

  // The path is this directory, if any, and this file name in it.
  predicate IsLastPart(path: string, directory: string, name: string) {
    path == directory + name && (directory == "" || EndsInSlash(directory)) && forall i :: 0 <= i < |name| ==> name[i] != '/'
  }

  lemma {:induction false} BaseNameIsLast(path: string)
    ensures |BaseName(path)| <= |path| && IsLastPart(path, path[..|path| - |BaseName(path)|], BaseName(path))
  {
    if path != "" && path[|path| - 1] != '/' {
      var init, last := path[..|path| - 1], path[|path| - 1];
      BaseNameIsLast(init);
      var directory := init[..|init| - |BaseName(init)|];
      assert path == init + [last] && BaseName(path) == BaseName(init) + [last];
      hide BaseName;
      assert path == directory + BaseName(path);
      assert path[..|path| - |BaseName(path)|] == directory;
    }
  }

  lemma LastPartUnique(path: string, a: string, x: string, b: string, y: string)
    requires IsLastPart(path, a, x) && IsLastPart(path, b, y) && |a| <= |b|
    ensures a == b && x == y
  {
    assert forall i :: |a| <= i < |path| ==> path[i] == x[i - |a|];
    assert b != "" ==> path[|b| - 1] == '/';
    assert |a| == |b|;
    assert a == path[..|a|] && b == path[..|b|];
    assert x == path[|a|..] && y == path[|b|..];
  }

  /** A listing hides the metadata files and the files whose name, behind the last slash, marks an unfinished upload. */
  lemma ListedIff(path: string)
    ensures Listed(path) <==>
              && (!exists content :: path == content + ".metadata.json")
              && !exists directory, rest :: IsLastPart(path, directory, ".upload-" + rest)
  {
    var name := BaseName(path);
    BaseNameIsLast(path);
    if EndsWith(path, METADATA_SUFFIX) {
      assert path == path[..|path| - |METADATA_SUFFIX|] + ".metadata.json";
    }
    if content :| path == content + ".metadata.json" {
      assert path[|path| - |METADATA_SUFFIX|..] == METADATA_SUFFIX;
    }
    if UPLOAD_PREFIX <= name {
      assert name == ".upload-" + name[|UPLOAD_PREFIX|..];
    }
    if directory, rest :| IsLastPart(path, directory, ".upload-" + rest) {
      var own := path[..|path| - |name|];
      if |own| <= |directory| {
        LastPartUnique(path, own, name, directory, ".upload-" + rest);
      } else {
        LastPartUnique(path, directory, ".upload-" + rest, own, name);
      }
    }
  }

  lemma DotInSuffix(s: string)
    requires EndsWith(s, METADATA_SUFFIX)
    ensures '.' in s
  {
    assert s[|s| - |METADATA_SUFFIX|] == s[|s| - |METADATA_SUFFIX|..][0] == '.';
  }

  lemma DotInPrefix(s: string)
    requires UPLOAD_PREFIX <= BaseName(s)
    ensures '.' in s
  {
    BaseNameChars(s);
    assert BaseName(s)[0] == '.';
  }

  lemma KeysAreListed(key: string)
    requires IsPath(key)
    ensures Listed(key)
  {
    KeysHaveNoDot(key);
    if EndsWith(key, METADATA_SUFFIX) {
      DotInSuffix(key);
    }
    if UPLOAD_PREFIX <= BaseName(key) {
      DotInPrefix(key);
    }
  }

  lemma KeysHaveNoDot(key: string)
    requires ValidKey(key)
    ensures '.' !in key
  {
    assert !KeyChar('.');
  }

  lemma MetadataIsNotListed(key: string)
    ensures !Listed(MetadataPath(key))
  {
  }

  lemma AncestorsOfMetadata(key: string)
    ensures Ancestors(MetadataPath(key)) == Ancestors(key)
  {
    var p := MetadataPath(key);
    assert forall j :: 0 <= j < |METADATA_SUFFIX| ==> METADATA_SUFFIX[j] != '/';
    assert forall i :: |key| <= i < |p| ==> p[i] == METADATA_SUFFIX[i - |key|];
    assert forall i :: 0 <= i < |key| ==> p[..i] == key[..i];
    forall a | a in Ancestors(key) ensures a in Ancestors(p) {
      var i :| 0 <= i < |key| && key[i] == '/' && a == key[..i];
      assert p[i] == '/' && p[..i] == a;
    }
  }

  lemma AncestorsOfAncestors(path: string)
    ensures forall d :: d in Ancestors(path) ==> Ancestors(d) <= Ancestors(path)
  {
    forall d, e | d in Ancestors(path) && e in Ancestors(d) ensures e in Ancestors(path) {
      var i :| 0 <= i < |path| && path[i] == '/' && d == path[..i];
      var j :| 0 <= j < |d| && d[j] == '/' && e == d[..j];
      assert path[j] == '/' && e == path[..j];
    }
  }

  lemma NotItsOwnAncestor(path: string)
    ensures path !in Ancestors(path) && MetadataPath(path) !in Ancestors(path)
  {
    assert forall a :: a in Ancestors(path) ==> |a| < |path|;
  }

  type Files = map<string, File>

  // ---------- the directory tree as a value ----------

  ghost predicate HasSidecar(files: Files, codec: Codec, key: string) {
    key in files && MetadataPath(key) in files && codec.decode(files[MetadataPath(key)].bytes).Some?
  }

  ghost function DescriptorOf(files: Files, codec: Codec, key: string): Descriptor
    requires HasSidecar(files, codec, key)
  {
    var meta := codec.decode(files[MetadataPath(key)].bytes).value;
    Descriptor(key, meta.size, meta.sha256, meta.mediaType, files[key].mtime)
  }

  // The sidecar of a content file describes it.
  ghost predicate Described(files: Files, hash: string -> string, codec: Codec, key: string) {
    && HasSidecar(files, codec, key)
    && var d := DescriptorOf(files, codec, key);
       d.size == |files[key].bytes| && d.sha256 == hash(files[key].bytes) && ValidDescriptor(d)
  }

  // Between operations: content files with their sidecars, and nothing else.
  ghost predicate ValidTree(files: Files, dirs: set<string>, hash: string -> string, codec: Codec) {
    && RoundTrips(codec)
    && (forall p :: p in files && IsPath(p) ==> Described(files, hash, codec, p))
    && (forall p :: p in files && !IsPath(p) ==> OwnedSidecar(files, p))
    && files.Keys !! dirs
    && (forall p :: p in files ==> Ancestors(p) <= dirs)
    && (forall d :: d in dirs ==> Ancestors(d) <= dirs && '.' !in d)
  }

  ghost predicate OwnedSidecar(files: Files, p: string) {
    exists key :: key in files && IsPath(key) && p == MetadataPath(key)
  }

  // The tree as the simple map.
  ghost function ObjectsIn(files: Files, codec: Codec): Objects
    requires forall p :: p in files && IsPath(p) ==> HasSidecar(files, codec, p)
  {
    map key | key in files && IsPath(key) :: Stored(files[key].bytes, DescriptorOf(files, codec, key))
  }

  // A proper prefix of the path is a file.
  predicate PassesThroughFile(files: Files, key: string) { exists a :: a in Ancestors(key) && a in files }

  // The path is a directory, or passes through a file.
  ghost predicate Conflict(files: Files, dirs: set<string>, key: string) { key in dirs || PassesThroughFile(files, key) }

  // Other bytes with the same size, digest and media type are stored under the key.
  ghost predicate Collision(files: Files, codec: Codec, key: string, content: string, sha256: string, mediaType: string) {
    && HasSidecar(files, codec, key)
    && VerifiedDescriptor(DescriptorOf(files, codec, key), Descriptor(key, |content|, sha256, mediaType, 0))
    && files[key].bytes != content
  }

  function Written(files: Files, key: string, content: string, meta: string, now: int): Files {
    files[key := File(content, now)][MetadataPath(key) := File(meta, now)]
  }

  // Where a put writes its two files.
  predicate CreatesTwoFiles(before: Files, after: Files, key: string, content: string, meta: string, now: int)
    requires key != ""
  {
    var path := if key[|key| - 1] == '/' then key[..|key| - 1] else key;
    path !in before && after == before[path := File(content, now)][path + ".metadata.json" := File(meta, now)]
  }

  lemma WrittenCreates(files: Files, key: string, content: string, meta: string, now: int)
    requires key != "" && PathOf(key) !in files
    ensures CreatesTwoFiles(files, Written(files, PathOf(key), content, meta, now), key, content, meta, now)
  {
  }

  // Writing two files leaves the other objects as they were.
  lemma WrittenOthers(files: Files, hash: string -> string, codec: Codec, key: string, content: string, meta: string, now: int, p: string)
    requires IsPath(key) && IsPath(p) && p != key && Described(files, hash, codec, p)
    ensures Described(Written(files, key, content, meta, now), hash, codec, p)
    ensures DescriptorOf(Written(files, key, content, meta, now), codec, p) == DescriptorOf(files, codec, p)
  {
    hide IsPath, MetadataPath, IsHex;
    MetadataPathIsNoKey(key);
    MetadataPathIsNoKey(p);
    if MetadataPath(p) == MetadataPath(key) {
      MetadataPathInjective(p, key);
    }
  }

  // A map that holds, under each key of the tree, what the tree describes, is the tree's map.
  lemma ObjectsAre(files: Files, codec: Codec, m: Objects)
    requires forall key :: key in m <==> key in files && IsPath(key)
    requires forall key :: key in m ==> HasSidecar(files, codec, key) && m[key] == Stored(files[key].bytes, DescriptorOf(files, codec, key))
    ensures ObjectsIn(files, codec) == m
  {
    hide IsPath, HasSidecar, DescriptorOf;
  }

  lemma ObjectsHave(files: Files, codec: Codec, key: string)
    requires forall p :: p in files && IsPath(p) ==> HasSidecar(files, codec, p)
    ensures key in ObjectsIn(files, codec) <==> key in files && IsPath(key)
    ensures key in files && IsPath(key) ==> ObjectsIn(files, codec)[key] == Stored(files[key].bytes, DescriptorOf(files, codec, key))
  {
    hide IsPath, HasSidecar, DescriptorOf;
  }

  // After writing, every object is described, the old ones as before.
  lemma WrittenAll(files: Files, dirs: set<string>, hash: string -> string, codec: Codec, key: string, content: string,
                   sidecar: Sidecar, now: int, p: string)
    requires ValidTree(files, dirs, hash, codec) && IsPath(key) && key !in files
    requires sidecar.size == |content| && sidecar.sha256 == hash(content)
    requires ValidDescriptor(Descriptor(key, sidecar.size, sidecar.sha256, sidecar.mediaType, now))
    requires p in Written(files, key, content, codec.encode(sidecar), now) && IsPath(p)
    ensures var files' := Written(files, key, content, codec.encode(sidecar), now);
            && Described(files', hash, codec, p) && HasSidecar(files', codec, p)
            && (if p == key
                then DescriptorOf(files', codec, p) == Descriptor(key, sidecar.size, sidecar.sha256, sidecar.mediaType, now)
                     && files'[p].bytes == content
                else p in files && HasSidecar(files, codec, p) && DescriptorOf(files', codec, p) == DescriptorOf(files, codec, p)
                     && files'[p].bytes == files[p].bytes)
  {
    hide IsPath, MetadataPath, IsHex, Described, DescriptorOf, HasSidecar, Ancestors, OwnedSidecar;
    MetadataPathIsNoKey(key);
    if p == key {
      NewObjectDescribed(files, hash, codec, key, content, sidecar, now);
    } else {
      DescribedHasSidecar(files, hash, codec, p);
      WrittenOthers(files, hash, codec, key, content, codec.encode(sidecar), now, p);
      DescribedHasSidecar(Written(files, key, content, codec.encode(sidecar), now), hash, codec, p);
    }
  }

  /** Writing a new object adds exactly that object. */
  lemma WrittenObject(files: Files, dirs: set<string>, hash: string -> string, codec: Codec, key: string, content: string,
                      sidecar: Sidecar, now: int)
    requires ValidTree(files, dirs, hash, codec) && IsPath(key) && key !in files
    requires sidecar.size == |content| && sidecar.sha256 == hash(content)
    requires ValidDescriptor(Descriptor(key, sidecar.size, sidecar.sha256, sidecar.mediaType, now))
    ensures var files' := Written(files, key, content, codec.encode(sidecar), now);
            && (forall p :: p in files' && IsPath(p) ==> HasSidecar(files', codec, p))
            && (forall p :: p in files && IsPath(p) ==> HasSidecar(files, codec, p))
            && ObjectsIn(files', codec) == ObjectsIn(files, codec)[key := Stored(content,
                 Descriptor(key, sidecar.size, sidecar.sha256, sidecar.mediaType, now))]
  {
    hide IsPath, MetadataPath, IsHex, DescriptorOf, HasSidecar, ObjectsIn, Written, Ancestors, OwnedSidecar;
    var files' := Written(files, key, content, codec.encode(sidecar), now);
    WrittenKeys(files, key, content, codec.encode(sidecar), now);
    forall p | p in files && IsPath(p) ensures HasSidecar(files, codec, p) {
      DescribedHasSidecar(files, hash, codec, p);
    }
    hide ValidTree, Described;
    var m := ObjectsIn(files, codec)[key := Stored(content, Descriptor(key, sidecar.size, sidecar.sha256, sidecar.mediaType, now))];
    forall p ensures p in m <==> p in files' && IsPath(p) {
      ObjectsHave(files, codec, p);
    }
    forall p | p in files' && IsPath(p)
      ensures HasSidecar(files', codec, p) && m[p] == Stored(files'[p].bytes, DescriptorOf(files', codec, p))
    {
      WrittenAll(files, dirs, hash, codec, key, content, sidecar, now, p);
      ObjectsHave(files, codec, p);
    }
    ObjectsAre(files', codec, m);
  }

  lemma WrittenKeys(files: Files, key: string, content: string, meta: string, now: int)
    ensures Written(files, key, content, meta, now).Keys == files.Keys + {key, MetadataPath(key)}
    ensures !IsPath(MetadataPath(key))
  {
    MetadataPathIsNoKey(key);
  }

  /** Writing a new object keeps the tree valid. */
  lemma WrittenTree(files: Files, dirs: set<string>, hash: string -> string, codec: Codec, key: string, content: string,
                    sidecar: Sidecar, now: int)
    requires ValidTree(files, dirs, hash, codec) && IsPath(key) && key !in files
    requires !Conflict(files, dirs, key)
    requires sidecar.size == |content| && sidecar.sha256 == hash(content)
    requires ValidDescriptor(Descriptor(key, sidecar.size, sidecar.sha256, sidecar.mediaType, now))
    ensures ValidTree(Written(files, key, content, codec.encode(sidecar), now), dirs + Ancestors(key), hash, codec)
  {
    hide IsPath, MetadataPath, IsHex, DescriptorOf, HasSidecar, ObjectsIn, Written, Described, Ancestors;
    var files' := Written(files, key, content, codec.encode(sidecar), now);
    WrittenKeys(files, key, content, codec.encode(sidecar), now);
    forall p | p in files' && IsPath(p) ensures Described(files', hash, codec, p) {
      WrittenAll(files, dirs, hash, codec, key, content, sidecar, now, p);
    }
    forall p | p in files' && !IsPath(p) ensures OwnedSidecar(files', p) {
      if p != MetadataPath(key) {
        assert OwnedSidecar(files, p);
        var k :| k in files && IsPath(k) && p == MetadataPath(k);
        assert k in files';
      } else {
        assert key in files';
      }
    }
    AncestorsOfMetadata(key);
    AncestorsOfAncestors(key);
    NotItsOwnAncestor(key);
    AncestorsHaveNoDot(key);
    MetadataHasDot(key);
  }

  lemma AncestorsHaveNoDot(path: string)
    requires IsPath(path)
    ensures forall d :: d in Ancestors(path) ==> '.' !in d
  {
    KeysHaveNoDot(path);
  }

  lemma MetadataHasDot(path: string)
    ensures '.' in MetadataPath(path)
  {
    assert MetadataPath(path)[|path|] == '.';
  }

  lemma DescribedHasSidecar(files: Files, hash: string -> string, codec: Codec, p: string)
    requires Described(files, hash, codec, p)
    ensures HasSidecar(files, codec, p)
  {
  }

  lemma NewObjectDescribed(files: Files, hash: string -> string, codec: Codec, key: string, content: string, sidecar: Sidecar, now: int)
    requires RoundTrips(codec)
    requires sidecar.size == |content| && sidecar.sha256 == hash(content)
    requires ValidDescriptor(Descriptor(key, sidecar.size, sidecar.sha256, sidecar.mediaType, now))
    ensures var files' := Written(files, key, content, codec.encode(sidecar), now);
            Described(files', hash, codec, key) && HasSidecar(files', codec, key)
            && DescriptorOf(files', codec, key) == Descriptor(key, sidecar.size, sidecar.sha256, sidecar.mediaType, now)
  {
    hide IsHex;
    assert |MetadataPath(key)| > |key|;
  }

  lemma RemovedOthers(files: Files, hash: string -> string, codec: Codec, key: string, p: string)
    requires IsPath(key) && IsPath(p) && p != key && Described(files, hash, codec, p)
    ensures var files' := files - {key} - {MetadataPath(key)};
            && Described(files', hash, codec, p) && HasSidecar(files', codec, p)
            && DescriptorOf(files', codec, p) == DescriptorOf(files, codec, p) && files'[p].bytes == files[p].bytes
  {
    hide IsPath, MetadataPath, IsHex;
    MetadataPathIsNoKey(key);
    MetadataPathIsNoKey(p);
    if MetadataPath(p) == MetadataPath(key) {
      MetadataPathInjective(p, key);
    }
  }

  /** Removing both files of a key removes exactly that object and keeps the tree valid. */
  lemma RemovedObject(files: Files, dirs: set<string>, hash: string -> string, codec: Codec, key: string)
    requires ValidTree(files, dirs, hash, codec) && IsPath(key)
    ensures var files' := files - {key} - {MetadataPath(key)};
            && ValidTree(files', dirs, hash, codec)
            && (forall p :: p in files' && IsPath(p) ==> HasSidecar(files', codec, p))
            && (forall p :: p in files && IsPath(p) ==> HasSidecar(files, codec, p))
            && ObjectsIn(files', codec) == ObjectsIn(files, codec) - {key}
  {
    hide IsPath, Ancestors, MetadataPath, IsHex, Described, HasSidecar, DescriptorOf, ObjectsIn;
    var files' := files - {key} - {MetadataPath(key)};
    MetadataPathIsNoKey(key);
    forall p | p in files && IsPath(p) ensures HasSidecar(files, codec, p) {
      DescribedHasSidecar(files, hash, codec, p);
    }
    forall p | p in files' && IsPath(p)
      ensures Described(files', hash, codec, p) && HasSidecar(files', codec, p)
      ensures DescriptorOf(files', codec, p) == DescriptorOf(files, codec, p) && files'[p].bytes == files[p].bytes
    {
      RemovedOthers(files, hash, codec, key, p);
    }
    forall p | p in files' && !IsPath(p) ensures OwnedSidecar(files', p) {
      assert OwnedSidecar(files, p);
      var k :| k in files && IsPath(k) && p == MetadataPath(k);
      assert k in files';
    }
    hide ValidTree, OwnedSidecar;
    forall p ensures p in ObjectsIn(files, codec) - {key} <==> p in files' && IsPath(p)
      ensures p in files' && IsPath(p) ==> ObjectsIn(files, codec)[p] == Stored(files'[p].bytes, DescriptorOf(files', codec, p))
    {
      ObjectsHave(files, codec, p);
    }
    ObjectsAre(files', codec, ObjectsIn(files, codec) - {key});
  }

  // A metadata file has an owner, which is the key it is named after.
  lemma SidecarImpliesContent(files: Files, dirs: set<string>, hash: string -> string, codec: Codec, key: string)
    requires ValidTree(files, dirs, hash, codec) && MetadataPath(key) in files
    ensures key in files && IsPath(key)
  {
    hide IsPath, Ancestors, IsHex;
    MetadataPathIsNoKey(key);
    assert OwnedSidecar(files, MetadataPath(key));
    var k :| k in files && IsPath(k) && MetadataPath(key) == MetadataPath(k);
    MetadataPathInjective(key, k);
  }

  /** A listing shows the keys of the objects and no other file. */
  lemma ListedAreKeys(files: Files, dirs: set<string>, hash: string -> string, codec: Codec)
    requires ValidTree(files, dirs, hash, codec)
    ensures forall p :: p in files ==> (Listed(p) <==> IsPath(p))
  {
    hide Ancestors, IsHex, Listed, IsPath, MetadataPath;
    forall p | p in files ensures Listed(p) <==> IsPath(p) {
      if IsPath(p) {
        KeysAreListed(p);
      } else {
        assert OwnedSidecar(files, p);
        var k :| k in files && IsPath(k) && p == MetadataPath(k);
        MetadataIsNotListed(k);
      }
    }
  }

  // What a valid tree says about one path.
  lemma TreeFacts(files: Files, dirs: set<string>, hash: string -> string, codec: Codec, key: string)
    requires ValidTree(files, dirs, hash, codec)
    ensures forall p :: p in files && IsPath(p) ==> HasSidecar(files, codec, p)
    ensures key in ObjectsIn(files, codec) <==> key in files && IsPath(key)
    ensures key in files && IsPath(key) ==>
              ObjectsIn(files, codec)[key] == Stored(files[key].bytes, DescriptorOf(files, codec, key))
              && DescriptorOf(files, codec, key).sha256 == hash(files[key].bytes) && DescriptorOf(files, codec, key).key == key
    ensures key in files ==> !Conflict(files, dirs, key)
    ensures HasSidecar(files, codec, key) ==> key in files
  {
    hide IsPath, Ancestors, IsHex, OwnedSidecar;
    if key in files && IsPath(key) {
      assert Described(files, hash, codec, key);
    }
    forall p | p in files && IsPath(p) ensures HasSidecar(files, codec, p) {
      DescribedHasSidecar(files, hash, codec, p);
    }
  }

  // What the simple map answers for one key, said of another.
  function Said(key: string, d: Descriptor): Descriptor { d.(key := key) }

  function SaidStat(key: string, r: Result<Descriptor, StoreError>): Result<Descriptor, StoreError> {
    match r case Success(d) => Success(Said(key, d)) case Failure(e) => Failure(e)
  }

  function SaidPut(key: string, r: Result<PutResult, StoreError>): Result<PutResult, StoreError> {
    match r case Success(x) => Success(PutResult(Said(key, x.descriptor), x.created)) case Failure(e) => Failure(e)
  }

  // What exists is not behind a file.
  lemma ExistingPathsAreOpen(files: Files, dirs: set<string>, hash: string -> string, codec: Codec, key: string)
    requires ValidTree(files, dirs, hash, codec) && (key in files || key in dirs)
    ensures !PassesThroughFile(files, key)
  {
    hide IsPath, Ancestors, Described, OwnedSidecar;
    assert Ancestors(key) <= dirs;
    forall a | a in Ancestors(key) ensures a !in files {
      assert a in dirs;
    }
  }

  lemma IsPathFacts(path: string)
    ensures IsPath(path) ==> ValidKey(path) && !EndsInSlash(path) && PathOf(path) == path
  {
  }

  // ---------- the adapter ----------

  class FilesystemObjectStore {
    var files: Files
    var dirs: set<string>
    const hash: string -> string
    const codec: Codec

    ghost predicate Valid()
      reads this
    {
      ValidTree(files, dirs, hash, codec)
    }

    // The store as the simple map.
    ghost function Contents(): Objects
      requires Valid()
      reads this
    {
      ObjectsIn(files, codec)
    }

    constructor (hash: string -> string, codec: Codec)
      requires RoundTrips(codec)
      ensures Valid() && Contents() == map[] && this.hash == hash && this.codec == codec
    {
      files, dirs := map[], {};
      this.hash, this.codec := hash, codec;
    }

    /** The simple map's answer for the key without its trailing slash, unless the path passes through a file. */
    method StatObject(key: string) returns (r: Result<Descriptor, StoreError>)
      requires Valid()
      ensures !ValidKey(key) ==> r == Failure(InvalidArgument)
      ensures ValidKey(key) ==>
                r == if PassesThroughFile(files, PathOf(key)) then Failure(OsError) else SaidStat(key, Stat(Contents(), PathOf(key)))
    {
      hide IsHex, Ancestors;
      if !ValidKey(key) {
        return Failure(InvalidArgument);
      }
      PathsOfKeys(key);
      var path := PathOf(key);
      if PassesThroughFile(files, path) {
        return Failure(OsError);
      }
      var metadataPath := MetadataPath(path);
      if metadataPath !in files {
        return Failure(NotFound);
      }
      SidecarImpliesContent(files, dirs, hash, codec, path);
      var meta := codec.decode(files[metadataPath].bytes);
      if meta.None? {
        return Failure(Integrity);
      }
      var descriptor := Descriptor(key, meta.value.size, meta.value.sha256, meta.value.mediaType, files[path].mtime);
      if |files[path].bytes| != descriptor.size || !ValidDescriptor(descriptor) {
        return Failure(Integrity);
      }
      return Success(descriptor);
    }

    // Both files are written under temporary names and moved into place.
    method Write(key: string, content: string, meta: string, now: int, uploadTemp: string, metadataTemp: string)
      requires key !in files && uploadTemp !in files && metadataTemp !in files && uploadTemp != metadataTemp
      requires uploadTemp !in {key, MetadataPath(key)} && metadataTemp !in {key, MetadataPath(key)}
      modifies this`files
      ensures files == Written(old(files), key, content, meta, now)
    {
      files := files[uploadTemp := File(content, now)];
      files := files[key := files[uploadTemp]] - {uploadTemp};
      files := files[metadataTemp := File(meta, now)];
      files := files[MetadataPath(key) := files[metadataTemp]] - {metadataTemp};
    }

    /**
     * The simple map's put exactly when the key does not end in a slash and neither a path conflict nor a
     * digest collision gets in the way; a key that ends in a slash puts the object of the key without it.
     */
    method PutObject(key: string, content: string, sha256: string, mediaType: string, now: int, uploadTemp: string, metadataTemp: string)
        returns (r: Result<PutResult, StoreError>)
      requires Valid()
      requires uploadTemp !in files && metadataTemp !in files && uploadTemp != metadataTemp
      requires uploadTemp !in {PathOf(key), MetadataPath(PathOf(key))} && metadataTemp !in {PathOf(key), MetadataPath(PathOf(key))}
      modifies this`files, this`dirs
      ensures Valid()
      ensures CheckPut(hash, key, content, sha256, mediaType).Some? ==>
                Contents() == old(Contents()) && r == Failure(CheckPut(hash, key, content, sha256, mediaType).value)
      ensures CheckPut(hash, key, content, sha256, mediaType).None? ==>
                ((Contents(), r) == Put(old(Contents()), hash, key, content, sha256, mediaType, now)
                 <==> && !EndsInSlash(key) && !old(Conflict(files, dirs, PathOf(key)))
                      && !old(Collision(files, codec, PathOf(key), content, sha256, mediaType)))
      ensures CheckPut(hash, key, content, sha256, mediaType).None?
              && !old(Conflict(files, dirs, PathOf(key))) && !old(Collision(files, codec, PathOf(key), content, sha256, mediaType)) ==>
                var (m, said) := Put(old(Contents()), hash, PathOf(key), content, sha256, mediaType, now);
                Contents() == m && r == SaidPut(key, said)
      ensures old(Conflict(files, dirs, PathOf(key))) ==> Contents() == old(Contents()) && r.Failure?
      ensures r.Success? && r.value.created ==>
                key != "" && CreatesTwoFiles(old(files), files, key, content, codec.encode(Sidecar(|content|, sha256, mediaType)), now)
      ensures r.Failure? || !r.value.created ==> files == old(files) && dirs == old(dirs)
    {
      hide IsHex, ValidKey, IsPath, PathOf, EndsInSlash, Ancestors, ValidTree, ObjectsIn, HasSidecar, DescriptorOf, Described, Written, MetadataPath;
      hide CreatesTwoFiles;
      var refused := CheckPut(hash, key, content, sha256, mediaType);
      TreeFacts(files, dirs, hash, codec, key);
      TreeFacts(files, dirs, hash, codec, PathOf(key));
      if refused.Some? {
        if ValidKey(key) {
          PathsOfKeys(key);
        }
        return Failure(refused.value);
      }
      PathsOfKeys(key);
      var path := PathOf(key);
      IsPathFacts(path);
      IsPathFacts(key);
      var descriptor := Descriptor(key, |content|, sha256, mediaType, now);
      if path in files || path in dirs {
        r := PutExisting(key, content, descriptor);
        return;
      }
      if PassesThroughFile(files, path) {
        return Failure(OsError);
      }
      var sidecar := Sidecar(|content|, sha256, mediaType);
      WrittenObject(files, dirs, hash, codec, path, content, sidecar, now);
      WrittenTree(files, dirs, hash, codec, path, content, sidecar, now);
      dirs := dirs + Ancestors(path);
      Write(path, content, codec.encode(sidecar), now, uploadTemp, metadataTemp);
      WrittenCreates(old(files), key, content, codec.encode(sidecar), now);
      TreeFacts(files, dirs, hash, codec, key);
      return Success(PutResult(descriptor, true));
    }

    // The path is taken: by this object, by another one, or by a directory.
    method PutExisting(key: string, content: string, descriptor: Descriptor) returns (r: Result<PutResult, StoreError>)
      requires Valid() && ValidKey(key) && (PathOf(key) in files || PathOf(key) in dirs)
      requires descriptor.key == key && descriptor.size == |content| && descriptor.sha256 == hash(content)
      ensures PathOf(key) in dirs ==> r == Failure(NotFound)
      ensures PathOf(key) in files ==> PathOf(key) in Contents()
      ensures PathOf(key) in Contents() ==>
                r == if VerifiedDescriptor(Said(key, Contents()[PathOf(key)].descriptor), descriptor)
                     then Success(PutResult(Said(key, Contents()[PathOf(key)].descriptor), false)) else Failure(Integrity)
    {
      hide IsHex, Ancestors, ValidKey, PathOf, ObjectsIn, DescriptorOf;
      PathsOfKeys(key);
      TreeFacts(files, dirs, hash, codec, PathOf(key));
      ExistingPathsAreOpen(files, dirs, hash, codec, PathOf(key));
      hide PassesThroughFile;
      var existing := StatObject(key);
      if existing.Failure? {
        return Failure(existing.error);
      }
      if !VerifiedDescriptor(existing.value, descriptor) || hash(files[PathOf(key)].bytes) != descriptor.sha256 {
        return Failure(Integrity);
      }
      return Success(PutResult(existing.value, false));
    }

    /** The simple map's delete of the key without its trailing slash, where no path conflict gets in the way. */
    method DeleteObject(key: string) returns (r: Result<(), StoreError>)
      requires Valid()
      modifies this`files
      ensures Valid()
      ensures !ValidKey(key) ==> r == Failure(InvalidArgument) && Contents() == old(Contents())
      ensures ValidKey(key) && !old(Conflict(files, dirs, PathOf(key))) ==> r == Success(()) && Contents() == old(Contents()) - {PathOf(key)}
      ensures ValidKey(key) && old(Conflict(files, dirs, PathOf(key))) ==> r == Failure(OsError) && Contents() == old(Contents())
    {
      hide ValidTree, ObjectsIn, ValidKey, IsPath, PathOf, Ancestors;
      if !ValidKey(key) {
        return Failure(InvalidArgument);
      }
      PathsOfKeys(key);
      var path := PathOf(key);
      if path in dirs || PassesThroughFile(files, path) {
        return Failure(OsError);
      }
      RemovedObject(files, dirs, hash, codec, path);
      files := files - {path};
      files := files - {MetadataPath(path)};
      return Success(());
    }

    method ListKeys(prefix: string, limit: int, after: Option<string>) returns (r: Result<seq<string>, StoreError>)
      requires Valid()
      ensures r.Success? <==> ValidListing(prefix, limit, after)
      ensures r.Success? ==> r.value == Listing(Contents().Keys, prefix, limit, after)
    {
      if !ValidListing(prefix, limit, after) {
        return Failure(InvalidArgument);
      }
      assert limit >= 1;
      hide Sorted, Remaining, ValidKey, IsPath, ValidListing, MetadataPath, Ancestors, IsHex, Listed;
      var shown := set p | p in files && Listed(p);
      ListedAreKeys(files, dirs, hash, codec);
      assert shown == Contents().Keys;
      return Success(Take(Sorted(Remaining(shown, prefix, after)), limit));
    }
  }

  /** Putting "a/" stores "a": the simple map holds another key, under which nobody finds the object. */
  lemma TrailingSlashAliases(hash: string -> string, content: string, mediaType: string, now: int)
    requires IsHex(hash(content), 64) && 1 <= |mediaType| <= 160
    ensures ValidKey("a/") && PathOf("a/") == "a"
    ensures var simple := Put(map[], hash, "a/", content, hash(content), mediaType, now).0;
            simple.Keys == {"a/"} && Stat(simple, "a") == Failure(NotFound)
    ensures var stored := Put(map[], hash, PathOf("a/"), content, hash(content), mediaType, now).0;
            stored.Keys == {"a"} && Stat(stored, "a").Success?
  {
    hide IsHex;
    assert PathOf("a/") == "a";
  }
}
