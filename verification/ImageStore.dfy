/**
  The image store: image and layer rows, reference counts rebuilt from the rows, and blob files
  that are collected when nothing refers to them.

  A table is a map or a sequence of rows; a transaction takes effect as a whole or not at all.
  `dir` is the blobs directory, and `files` the regular files of the file system by path.
 */
module ImageStore {
  import opened BlobNames
  import opened Wrappers

  datatype ImageKey = ImageKey(scope: string, tag: string)

  datatype ImageRow = ImageRow(digest: string, size: int, source: string, rootfsPath: string, oci: Option<string>)

  datatype LayerRow = LayerRow(image: ImageKey, ordinal: nat, digest: string, fsType: string, size: int)

  datatype RefRow = RefRow(count: nat, size: int)

  datatype File = File(size: nat, stored: nat)

  datatype LayerRef = LayerRef(digest: string, fsType: string, size: int, path: string)

  type Files = map<string, File>

  datatype View = View(images: map<ImageKey, ImageRow>, layers: seq<LayerRow>, refs: map<BlobID, RefRow>, files: Files)

  function BlobPath(dir: string, digest: string, fsType: string): string {
    dir + "/" + BlobFileName(digest, fsType)
  }

  // ----- Layer rows and their counts

  /** The layer rows of an image, in the order of their ordinals. */
  function RowsOf(layers: seq<LayerRow>, image: ImageKey): seq<LayerRow> {
    if layers == [] then []
    else
      var last := layers[|layers| - 1];
      RowsOf(layers[..|layers| - 1], image) + if last.image == image then [last] else []
  }

  function RowsWithout(layers: seq<LayerRow>, image: ImageKey): seq<LayerRow> {
    if layers == [] then []
    else
      var last := layers[|layers| - 1];
      RowsWithout(layers[..|layers| - 1], image) + if last.image == image then [] else [last]
  }

  function NewRows(image: ImageKey, refs: seq<LayerRef>): seq<LayerRow> {
    seq(|refs|, i requires 0 <= i < |refs| => LayerRow(image, i, refs[i].digest, refs[i].fsType, refs[i].size))
  }

  lemma NewRowsNext(image: ImageKey, refs: seq<LayerRef>, i: nat)
    requires i < |refs|
    ensures NewRows(image, refs[..i + 1])
         == NewRows(image, refs[..i]) + [LayerRow(image, i, refs[i].digest, refs[i].fsType, refs[i].size)]
  {
  }

  /** Every image's rows are numbered from 0 without gaps, so their order is that of the ordinals. */
  ghost predicate Numbered(layers: seq<LayerRow>) {
    forall image, i :: 0 <= i < |RowsOf(layers, image)| ==> RowsOf(layers, image)[i].ordinal == i
  }

  lemma {:induction false} RowsOfConcat(a: seq<LayerRow>, b: seq<LayerRow>, image: ImageKey)
    ensures RowsOf(a + b, image) == RowsOf(a, image) + RowsOf(b, image)
  {
    if b == [] {
      assert a + b == a;
    } else {
      assert (a + b)[..|a + b| - 1] == a + b[..|b| - 1];
      RowsOfConcat(a, b[..|b| - 1], image);
    }
  }

  lemma {:induction false} RowsOfWithout(layers: seq<LayerRow>, gone: ImageKey, image: ImageKey)
    ensures RowsOf(RowsWithout(layers, gone), image) == if image == gone then [] else RowsOf(layers, image)
  {
    if layers != [] {
      var last, init := layers[|layers| - 1], layers[..|layers| - 1];
      RowsOfWithout(init, gone, image);
      RowsOfConcat(RowsWithout(init, gone), if last.image == gone then [] else [last], image);
      assert [last][..0] == [];
    }
  }

  lemma {:induction false} RowsOfOne(rows: seq<LayerRow>, owner: ImageKey, image: ImageKey)
    requires forall r :: r in rows ==> r.image == owner
    ensures RowsOf(rows, image) == if image == owner then rows else []
  {
    if rows != [] {
      RowsOfOne(rows[..|rows| - 1], owner, image);
      assert rows == rows[..|rows| - 1] + [rows[|rows| - 1]];
    }
  }

  function IDOf(row: LayerRow): BlobID { BlobID(row.digest, row.fsType) }

  function Count(layers: seq<LayerRow>, id: BlobID): nat {
    if layers == [] then 0
    else Count(layers[..|layers| - 1], id) + if IDOf(layers[|layers| - 1]) == id then 1 else 0
  }

  /** SQL's MAX over the rows of a group. */
  function MaxSize(layers: seq<LayerRow>, id: BlobID): int
    requires Count(layers, id) > 0
  {
    var last, init := layers[|layers| - 1], layers[..|layers| - 1];
    if IDOf(last) != id then MaxSize(init, id)
    else if Count(init, id) == 0 || last.size > MaxSize(init, id) then last.size
    else MaxSize(init, id)
  }

  /** `layer_refs` is the GROUP BY of the layer rows. */
  ghost predicate RefsAgree(layers: seq<LayerRow>, refs: map<BlobID, RefRow>) {
    forall id :: (id in refs <==> Count(layers, id) > 0)
                 && (id in refs ==> refs[id] == RefRow(Count(layers, id), MaxSize(layers, id)))
  }

  lemma {:induction false} CountPositive(layers: seq<LayerRow>, id: BlobID)
    ensures Count(layers, id) > 0 <==> exists r :: r in layers && IDOf(r) == id
  {
    if layers != [] {
      var last, init := layers[|layers| - 1], layers[..|layers| - 1];
      CountPositive(init, id);
      assert layers == init + [last];
    }
  }

  function IDs(layers: seq<LayerRow>): seq<BlobID> {
    seq(|layers|, i requires 0 <= i < |layers| => IDOf(layers[i]))
  }

  /** The count is how often the digest and type occur in the rows, the size the largest that occurs with them. */
  lemma {:induction false} CountAndMax(layers: seq<LayerRow>, id: BlobID)
    ensures Count(layers, id) == multiset(IDs(layers))[id]
    ensures Count(layers, id) > 0 ==>
              && (exists r :: r in layers && IDOf(r) == id && r.size == MaxSize(layers, id))
              && forall r :: r in layers && IDOf(r) == id ==> r.size <= MaxSize(layers, id)
  {
    if layers != [] {
      var last, init := layers[|layers| - 1], layers[..|layers| - 1];
      CountAndMax(init, id);
      CountPositive(init, id);
      assert layers == init + [last] && IDs(layers) == IDs(init) + [IDOf(last)];
    }
  }

  lemma {:induction false} RowsOfAreRows(layers: seq<LayerRow>, image: ImageKey)
    ensures forall r :: r in RowsOf(layers, image) <==> r in layers && r.image == image
  {
    if layers != [] {
      var last, init := layers[|layers| - 1], layers[..|layers| - 1];
      RowsOfAreRows(init, image);
      assert layers == init + [last];
    }
  }

  // ----- Loading an image

  datatype LoadError = ImageNotFound | UnsupportedFS | MissingLayer

  /** The paths, file system types and digests of a build result are those of `layers`. */
  datatype BuildResult = BuildResult(
    rootfsPath: string, layers: seq<LayerRef>, canonicalLayers: seq<LayerRef>,
    digest: string, size: int, oci: Option<string>)

  datatype Loaded = Loaded(result: BuildResult) | NotLoaded(error: LoadError)

  function LayerFor(dir: string, row: LayerRow): LayerRef
    requires NormalizeFSType(row.fsType).Some?
  {
    var fsType := NormalizeFSType(row.fsType).value;
    LayerRef(row.digest, fsType, row.size, BlobPath(dir, row.digest, fsType))
  }

  predicate Supported(rows: seq<LayerRow>) {
    forall i :: 0 <= i < |rows| ==> NormalizeFSType(rows[i].fsType).Some?
  }

  /** The layers the rows stand for; none if a file system type is not supported. */
  function LayersFor(dir: string, rows: seq<LayerRow>): Option<seq<LayerRef>> {
    if Supported(rows) then Some(seq(|rows|, i requires 0 <= i < |rows| => LayerFor(dir, rows[i]))) else None
  }

  lemma LayersStep(dir: string, rows: seq<LayerRow>, i: nat)
    requires i < |rows| && LayersFor(dir, rows[..i]).Some?
    ensures if NormalizeFSType(rows[i].fsType).None? then LayersFor(dir, rows) == None
            else LayersFor(dir, rows[..i + 1]) == Some(LayersFor(dir, rows[..i]).value + [LayerFor(dir, rows[i])])
  {
    var before, after := rows[..i], rows[..i + 1];
    assert after == before + [rows[i]];
    if NormalizeFSType(rows[i].fsType).Some? {
      assert Supported(before) && Supported(after);
      assert LayersFor(dir, after).value == LayersFor(dir, before).value + [LayerFor(dir, rows[i])];
    }
  }

  predicate FilePresent(files: Files, path: string) { path in files && files[path].size > 0 }

  predicate FilesPresent(files: Files, layers: seq<LayerRef>) {
    forall i :: 0 <= i < |layers| ==> FilePresent(files, layers[i].path)
  }

  function SizeFromLayers(layers: seq<LayerRef>): int {
    if layers == [] then 0
    else
      var last := layers[|layers| - 1];
      SizeFromLayers(layers[..|layers| - 1]) + if last.size > 0 then last.size else 0
  }

  function RuntimeLayer(files: Files, rootfsPath: string): Option<LayerRef> {
    if rootfsPath == "" then None
    else
      match ParseBlobPath(rootfsPath)
      case None => None
      case Some(id) =>
        if !FilePresent(files, rootfsPath) then None
        else Some(LayerRef(id.digest, id.fsType, files[rootfsPath].stored, rootfsPath))
  }

  predicate ContainsLayer(layers: seq<LayerRef>, digest: string, fsType: string) {
    exists i :: 0 <= i < |layers| && layers[i].digest == digest && layers[i].fsType == fsType
  }

  function Load(dir: string, v: View, image: ImageKey): Loaded {
    if image !in v.images then NotLoaded(ImageNotFound)
    else
      match LayersFor(dir, RowsOf(v.layers, image))
      case None => NotLoaded(UnsupportedFS)
      case Some(layers) =>
        if layers == [] then NotLoaded(ImageNotFound)
        else if !FilesPresent(v.files, layers) then NotLoaded(MissingLayer)
        else Loaded(ResultFor(v.files, v.images[image], layers))
  }

  function ResultFor(files: Files, row: ImageRow, layers: seq<LayerRef>): BuildResult
    requires layers != []
  {
    var runtime := RuntimeLayer(files, row.rootfsPath);
    var chosen := if runtime.Some? && !ContainsLayer(layers, runtime.value.digest, runtime.value.fsType)
                  then [runtime.value] else layers;
    BuildResult(chosen[0].path, chosen, layers, row.digest,
                if row.size <= 0 then SizeFromLayers(layers) else row.size, row.oci)
  }

  /** Why an image does not load: it is unknown or has no layers, a type is not supported, a blob is missing or empty. */
  lemma NotLoadedBecause(dir: string, v: View, image: ImageKey)
    ensures var r, rows := Load(dir, v, image), RowsOf(v.layers, image);
            && (r == NotLoaded(UnsupportedFS) <==> image in v.images && !Supported(rows))
            && (r == NotLoaded(ImageNotFound) <==> image !in v.images || rows == [])
            && (r == NotLoaded(MissingLayer)
                <==> image in v.images && Supported(rows) && exists i :: 0 <= i < |rows| && Absent(dir, v.files, rows[i].digest))
  {
    var rows := RowsOf(v.layers, image);
    if image in v.images && Supported(rows) {
      var layers := LayersFor(dir, rows).value;
      forall i | 0 <= i < |rows| ensures FilePresent(v.files, layers[i].path) <==> !Absent(dir, v.files, rows[i].digest) {
        assert layers[i] == LayerFor(dir, rows[i]);
      }
    }
  }

  /** There is no blob of this digest, or an empty one. */
  predicate Absent(dir: string, files: Files, digest: string) {
    var path := BlobPath(dir, digest, EROFS);
    path !in files || files[path].size == 0
  }

  /** The image names a file to run from that is there and is none of its layers. */
  ghost predicate RunsFromRootfs(files: Files, path: string, layers: seq<LayerRef>) {
    && path != "" && ParseBlobPath(path).Some?
    && path in files && files[path].size > 0
    && forall i :: 0 <= i < |layers| ==>
         layers[i].digest != ParseBlobPath(path).value.digest || layers[i].fsType != ParseBlobPath(path).value.fsType
  }

  /**
    What a loaded image runs from: its rootfs file alone, under the digest and type read from the path and with
    the space it takes, if there is one that is not among the layers; all its layers otherwise. The size is the
    one recorded, or that of the layers if none is.
   */
  lemma LoadedRunsFrom(dir: string, v: View, image: ImageKey)
    requires Load(dir, v, image).Loaded?
    ensures image in v.images
    ensures var r, row := Load(dir, v, image).result, v.images[image];
            && r.digest == row.digest && r.oci == row.oci
            && r.canonicalLayers != [] && r.layers != [] && r.rootfsPath == r.layers[0].path
            && r.size == (if row.size > 0 then row.size else SizeFromLayers(r.canonicalLayers))
    ensures var r, path := Load(dir, v, image).result, v.images[image].rootfsPath;
            if RunsFromRootfs(v.files, path, r.canonicalLayers)
            then r.layers == [LayerRef(ParseBlobPath(path).value.digest, ParseBlobPath(path).value.fsType,
                                       v.files[path].stored, path)]
            else r.layers == r.canonicalLayers
  {
  }

  /** The layers of a loaded image are its rows in the order of their ordinals, each with the file of its digest. */
  lemma LoadedLayersAreRows(dir: string, v: View, image: ImageKey)
    requires Load(dir, v, image).Loaded? && Numbered(v.layers)
    ensures var rows, layers := RowsOf(v.layers, image), Load(dir, v, image).result.canonicalLayers;
            && |layers| == |rows|
            && forall i :: 0 <= i < |layers| ==>
                 && rows[i].image == image && rows[i].ordinal == i && rows[i] in v.layers
                 && layers[i] == LayerRef(rows[i].digest, EROFS, rows[i].size, BlobPath(dir, rows[i].digest, EROFS))
                 && layers[i].path in v.files && v.files[layers[i].path].size > 0
  {
    var rows, layers := RowsOf(v.layers, image), Load(dir, v, image).result.canonicalLayers;
    RowsOfAreRows(v.layers, image);
    forall i | 0 <= i < |layers|
      ensures rows[i] in rows
              && layers[i] == LayerRef(rows[i].digest, EROFS, rows[i].size, BlobPath(dir, rows[i].digest, EROFS))
    {
      assert layers[i] == LayerFor(dir, rows[i]);
    }
    assert FilesPresent(v.files, layers);
  }

  /** The size of layers is the sum of those that are positive. */
  lemma {:induction false} SizeIsSum(a: seq<LayerRef>, b: seq<LayerRef>)
    ensures SizeFromLayers(a + b) == SizeFromLayers(a) + SizeFromLayers(b)
    ensures forall l: LayerRef :: SizeFromLayers([l]) == if l.size > 0 then l.size else 0
  {
    forall l: LayerRef ensures SizeFromLayers([l]) == if l.size > 0 then l.size else 0 {
      assert [l][..0] == [];
    }
    if b == [] {
      assert a + b == a;
    } else {
      assert (a + b)[..|a + b| - 1] == a + b[..|b| - 1];
      SizeIsSum(a, b[..|b| - 1]);
    }
  }

  // ----- What the collector keeps

  function Key(id: BlobID): string { id.digest + "|" + id.fsType }

  lemma KeyInjective(a: BlobID, b: BlobID)
    requires a.fsType == b.fsType && Key(a) == Key(b)
    ensures a == b
  {
    assert a.digest == Key(a)[..|Key(a)| - |"|" + a.fsType|];
    assert b.digest == Key(b)[..|Key(b)| - |"|" + b.fsType|];
  }

  predicate CountedID(refs: map<BlobID, RefRow>, id: BlobID) {
    id in refs && refs[id].count > 0 && id.digest != "" && NormalizeFSType(id.fsType).Some?
  }

  function RefKeys(refs: map<BlobID, RefRow>): set<string> { RefKeysAmong(refs, refs.Keys) }

  function RefKeysAmong(refs: map<BlobID, RefRow>, ids: set<BlobID>): set<string> {
    set id | id in ids && CountedID(refs, id) :: Key(BlobID(id.digest, NormalizeFSType(id.fsType).value))
  }

  lemma RefKeysNext(refs: map<BlobID, RefRow>, ids: set<BlobID>, id: BlobID)
    ensures RefKeysAmong(refs, ids + {id})
         == RefKeysAmong(refs, ids) + if CountedID(refs, id)
                                      then {Key(BlobID(id.digest, NormalizeFSType(id.fsType).value))} else {}
  {
  }

  predicate NamesRootfs(images: map<ImageKey, ImageRow>, image: ImageKey) {
    image in images && images[image].rootfsPath != "" && ParseBlobPath(images[image].rootfsPath).Some?
  }

  function RootKeys(images: map<ImageKey, ImageRow>): set<string> { RootKeysAmong(images, images.Keys) }

  function RootKeysAmong(images: map<ImageKey, ImageRow>, some: set<ImageKey>): set<string> {
    set image | image in some && NamesRootfs(images, image) :: Key(ParseBlobPath(images[image].rootfsPath).value)
  }

  lemma RootKeysNext(images: map<ImageKey, ImageRow>, some: set<ImageKey>, image: ImageKey)
    ensures RootKeysAmong(images, some + {image})
         == RootKeysAmong(images, some) + if NamesRootfs(images, image)
                                          then {Key(ParseBlobPath(images[image].rootfsPath).value)} else {}
  {
  }

  function Referenced(v: View): set<string> { RefKeys(v.refs) + RootKeys(v.images) }

  /** The path is an entry of the directory. */
  predicate InDir(dir: string, path: string) {
    && dir + "/" <= path
    && |dir| + 1 < |path|
    && SLASH !in path[|dir| + 1..]
  }

  function EntryName(dir: string, path: string): string
    requires InDir(dir, path)
  {
    path[|dir| + 1..]
  }

  /** A collection leaves alone what lies elsewhere, and in its directory what is neither a blob's name nor an old one's. */
  lemma OthersStay(dir: string, v: View, files: Files, path: string)
    requires Collected(dir, v, files) && path in v.files
    requires !(dir + "/" <= path) || SLASH in path[|dir| + 1..]
             || (ParseBlobPath(path).None? && !("sha256_" <= path[|dir| + 1..]))
    ensures path in files
  {
  }

  /** A complete collection takes a file whose name starts like a blob's and ends in another type. */
  lemma OldBlobsGo(dir: string, v: View, files: Files, stem: string, fsType: string)
    requires forall p :: p in files ==> !Doomed(dir, Referenced(v), p)
    requires SLASH !in stem && SLASH !in fsType && DOT !in fsType && NormalizeFSType(fsType).None?
    ensures dir + "/" + "sha256_" + stem + [DOT] + fsType !in files
  {
    var name := "sha256_" + stem + [DOT] + fsType;
    var path := dir + "/" + "sha256_" + stem + [DOT] + fsType;
    assert path == dir + "/" + name && path[|dir| + 1..] == name;
    OldName("sha256_" + stem, fsType);
    BaseOfName(dir, name);
    assert Legacy(name);
    assert Doomed(dir, Referenced(v), path);
  }

  lemma OldName(stem: string, fsType: string)
    requires stem != "" && SLASH !in stem && SLASH !in fsType && DOT !in fsType && NormalizeFSType(fsType).None?
    ensures var name := stem + [DOT] + fsType;
            name != "" && SLASH !in name && ParseName(name).None? && Ext(name) != [DOT] + EROFS
  {
    var name := stem + [DOT] + fsType;
    NoSlash(stem, fsType);
    LastDot(name, stem, fsType);
    NameParts(stem, fsType);
    ExtIs(name, stem, fsType);
    assert ([DOT] + fsType)[1..] == fsType && ([DOT] + EROFS)[1..] == EROFS;
  }

  /** Blobs of a type no longer supported. */
  predicate Legacy(name: string) {
    "sha256_" <= name && Ext(name) != [DOT] + EROFS
  }

  /** The collector removes this file. */
  predicate Doomed(dir: string, referenced: set<string>, path: string) {
    && InDir(dir, path)
    && match ParseBlobPath(path)
       case None => Legacy(EntryName(dir, path))
       case Some(id) => Key(id) !in referenced
  }

  /** The files left are the old ones without some that are doomed. */
  ghost predicate Collected(dir: string, v: View, files: Files) {
    && files.Keys <= v.files.Keys
    && (forall p :: p in files ==> files[p] == v.files[p])
    && (forall p :: p in v.files ==> p in files || Doomed(dir, Referenced(v), p))
  }

  /** The collector keeps the file of this digest. */
  predicate KeepsDigest(referenced: set<string>, digest: string) {
    Stored(digest).None? || Key(Stored(digest).value) in referenced
  }

  lemma BlobInDir(dir: string, digest: string)
    ensures var path := BlobPath(dir, digest, EROFS);
            && InDir(dir, path) && EntryName(dir, path) == BlobFileName(digest, EROFS)
            && ParseBlobPath(path) == Stored(digest)
  {
    var name := BlobFileName(digest, EROFS);
    NameIsComponent(digest, EROFS);
    var path := BlobPath(dir, digest, EROFS);
    assert path[|dir| + 1..] == name;
    BaseOfName(dir, name);
  }

  lemma DoomedBlob(dir: string, referenced: set<string>, digest: string)
    ensures Doomed(dir, referenced, BlobPath(dir, digest, EROFS)) <==> !KeepsDigest(referenced, digest)
  {
    BlobInDir(dir, digest);
    NameIsComponent(digest, EROFS);
  }

  /** A well-formed digest in a layer row protects its file. */
  lemma RowProtects(v: View, row: LayerRow)
    requires RefsAgree(v.layers, v.refs) && row in v.layers
    requires WellFormed(row.digest) && NormalizeFSType(row.fsType).Some?
    ensures KeepsDigest(Referenced(v), row.digest)
  {
    RoundTripExactly(row.digest);
    CountPositive(v.layers, IDOf(row));
    assert CountedID(v.refs, IDOf(row));
    assert Key(BlobID(row.digest, EROFS)) in RefKeys(v.refs);
  }

  /** A rootfs path that names a blob protects the file it points to, wherever that is. */
  lemma RootfsProtected(dir: string, v: View, image: ImageKey)
    requires NamesRootfs(v.images, image)
    ensures !Doomed(dir, Referenced(v), v.images[image].rootfsPath)
  {
    assert Key(ParseBlobPath(v.images[image].rootfsPath).value) in RootKeys(v.images);
  }

  lemma RuntimeLayerKept(dir: string, v: View, files: Files, image: ImageKey)
    requires Collected(dir, v, files) && image in v.images
    ensures RuntimeLayer(files, v.images[image].rootfsPath) == RuntimeLayer(v.files, v.images[image].rootfsPath)
  {
    if NamesRootfs(v.images, image) {
      RootfsProtected(dir, v, image);
    }
  }

  /** An image whose digests the collector keeps loads as before, with the same result. */
  lemma LoadsAsBefore(dir: string, v: View, files: Files, image: ImageKey)
    requires Collected(dir, v, files) && Load(dir, v, image).Loaded?
    requires forall r :: r in RowsOf(v.layers, image) ==> KeepsDigest(Referenced(v), r.digest)
    ensures Load(dir, v.(files := files), image) == Load(dir, v, image)
  {
    var rows := RowsOf(v.layers, image);
    var layers := LayersFor(dir, rows).value;
    forall i | 0 <= i < |layers| ensures FilePresent(files, layers[i].path) {
      assert FilePresent(v.files, layers[i].path);
      assert rows[i] in rows;
      DoomedBlob(dir, Referenced(v), rows[i].digest);
    }
    RuntimeLayerKept(dir, v, files, image);
  }

  ghost predicate WellFormedImage(layers: seq<LayerRow>, image: ImageKey) {
    forall r :: r in RowsOf(layers, image) ==> WellFormed(r.digest)
  }

  /** The image loads, and its digests have the form alg:hex. */
  ghost predicate LoadsWell(dir: string, v: View, image: ImageKey) {
    Load(dir, v, image).Loaded? && WellFormedImage(v.layers, image)
  }

  /** Collection harms no image with well-formed digests. */
  lemma CollectionIsSafe(dir: string, v: View, files: Files, image: ImageKey)
    requires Collected(dir, v, files) && RefsAgree(v.layers, v.refs)
    requires LoadsWell(dir, v, image)
    ensures Load(dir, v.(files := files), image) == Load(dir, v, image)
  {
    RowsOfAreRows(v.layers, image);
    forall r | r in RowsOf(v.layers, image) ensures KeepsDigest(Referenced(v), r.digest) {
      RowProtects(v, r);
    }
    LoadsAsBefore(dir, v, files, image);
  }

  /**
    Whether or not digests are well formed: an image survives a complete collection exactly when what the
    parser reads from each of its file names is nothing, or something referenced.
   */
  lemma SurvivesExactly(dir: string, v: View, files: Files, image: ImageKey)
    requires Collected(dir, v, files)
    requires forall p :: p in files ==> !Doomed(dir, Referenced(v), p)
    requires Load(dir, v, image).Loaded?
    ensures Load(dir, v.(files := files), image).Loaded?
            <==> forall r :: r in RowsOf(v.layers, image) ==> KeepsDigest(Referenced(v), r.digest)
  {
    if forall r :: r in RowsOf(v.layers, image) ==> KeepsDigest(Referenced(v), r.digest) {
      LoadsAsBefore(dir, v, files, image);
    } else {
      var r :| r in RowsOf(v.layers, image) && !KeepsDigest(Referenced(v), r.digest);
      LostLayer(dir, v, files, image, r);
    }
  }

  lemma LostLayer(dir: string, v: View, files: Files, image: ImageKey, r: LayerRow)
    requires forall p :: p in files ==> !Doomed(dir, Referenced(v), p)
    requires r in RowsOf(v.layers, image) && !KeepsDigest(Referenced(v), r.digest)
    ensures Load(dir, v.(files := files), image).NotLoaded?
  {
    var rows := RowsOf(v.layers, image);
    var path := BlobPath(dir, r.digest, EROFS);
    assert path !in files by { DoomedBlob(dir, Referenced(v), r.digest); }
    var i :| 0 <= i < |rows| && rows[i] == r;
    MissingFile(dir, v.(files := files), image, i);
  }

  lemma MissingFile(dir: string, v: View, image: ImageKey, i: nat)
    requires i < |RowsOf(v.layers, image)|
    requires BlobPath(dir, RowsOf(v.layers, image)[i].digest, EROFS) !in v.files
    ensures Load(dir, v, image).NotLoaded?
  {
    var rows := RowsOf(v.layers, image);
    if Supported(rows) {
      var layers := LayersFor(dir, rows).value;
      assert layers[i].path == BlobPath(dir, rows[i].digest, EROFS);
      assert !FilesPresent(v.files, layers);
    }
  }

  /** A digest that is not well formed but whose file name parses is read back as another one. */
  lemma Misread(digest: string)
    requires Stored(digest).Some? && !WellFormed(digest)
    ensures Stored(digest).value != BlobID(digest, EROFS)
    ensures Key(Stored(digest).value) != Key(BlobID(digest, EROFS))
  {
    RoundTripExactly(digest);
    if Key(BlobID(digest, EROFS)) == Key(Stored(digest).value) {
      KeyInjective(BlobID(digest, EROFS), Stored(digest).value);
    }
  }

  /**
    In any store: an image with a layer whose file name is read back as a digest that no layer row and no
    rootfs path names does not survive a complete collection, although a layer row of its own names it.
   */
  lemma MisreadDigestIsLost(dir: string, v: View, files: Files, image: ImageKey, r: LayerRow)
    requires RefsAgree(v.layers, v.refs)
    requires forall p :: p in files ==> !Doomed(dir, Referenced(v), p)
    requires r in RowsOf(v.layers, image) && Stored(r.digest).Some?
    requires !NamedByRow(v, Stored(r.digest).value) && !NamedByRootfs(v, Stored(r.digest).value)
    ensures Load(dir, v.(files := files), image).NotLoaded?
  {
    var id := Stored(r.digest).value;
    if Key(id) in RefKeys(v.refs) { RefKeyIsRow(v, id); }
    if Key(id) in RootKeys(v.images) { RootKeyIsImage(v, id); }
    assert !KeepsDigest(Referenced(v), r.digest);
    LostLayer(dir, v, files, image, r);
  }

  /** A store with one image of one layer, whose file is in place. */
  function OneLayerView(dir: string, digest: string): View {
    var image := ImageKey("local", "app");
    View(map[image := ImageRow(digest, 1, "", "", None)],
         [LayerRow(image, 0, digest, EROFS, 1)],
         map[BlobID(digest, EROFS) := RefRow(1, 1)],
         map[BlobPath(dir, digest, EROFS) := File(1, 1)])
  }

  lemma OneLayerViewInv(dir: string, digest: string)
    ensures ViewInv(OneLayerView(dir, digest))
    ensures Load(dir, OneLayerView(dir, digest), ImageKey("local", "app")).Loaded?
  {
    var image, v := ImageKey("local", "app"), OneLayerView(dir, digest);
    var row := v.layers[0];
    OneRow(row);
    OneRef(row);
    var layers := LayersFor(dir, [row]).value;
    assert layers[0].path == BlobPath(dir, digest, EROFS);
    assert FilesPresent(v.files, layers);
  }

  lemma OneRow(row: LayerRow)
    requires row.ordinal == 0
    ensures Numbered([row]) && RowsOf([row], row.image) == [row]
  {
    forall image ensures RowsOf([row], image) == if image == row.image then [row] else [] {
      assert [row][..0] == [];
    }
  }

  lemma OneRef(row: LayerRow)
    ensures RefsAgree([row], map[IDOf(row) := RefRow(1, row.size)])
  {
    var refs := map[IDOf(row) := RefRow(1, row.size)];
    forall id
      ensures id in refs <==> Count([row], id) > 0
      ensures id in refs ==> refs[id] == RefRow(Count([row], id), MaxSize([row], id))
    {
      OneCount(row, id);
      OneSize(row);
    }
  }

  lemma OneCount(row: LayerRow, id: BlobID)
    ensures Count([row], id) == if id == IDOf(row) then 1 else 0
  {
    assert [row][..0] == [] && Count([], id) == 0;
  }

  lemma OneSize(row: LayerRow)
    ensures Count([row], IDOf(row)) == 1 && MaxSize([row], IDOf(row)) == row.size
  {
    assert [row][..0] == [] && Count([], IDOf(row)) == 0;
  }

  /** A misread digest in a store of its own: the image loads, and after any complete collection it does not. */
  lemma MisreadImageIsLost(dir: string, digest: string, files: Files)
    requires Stored(digest).Some? && !WellFormed(digest)
    requires Collected(dir, OneLayerView(dir, digest), files)
    requires forall p :: p in files ==> !Doomed(dir, Referenced(OneLayerView(dir, digest)), p)
    ensures Load(dir, OneLayerView(dir, digest), ImageKey("local", "app")).Loaded?
    ensures Load(dir, OneLayerView(dir, digest).(files := files), ImageKey("local", "app")).NotLoaded?
  {
    var image, v := ImageKey("local", "app"), OneLayerView(dir, digest);
    OneLayerViewInv(dir, digest);
    Misread(digest);
    RowsOfAreRows(v.layers, image);
    NobodyElse(dir, digest, Stored(digest).value);
    MisreadDigestIsLost(dir, v, files, image, v.layers[0]);
  }

  lemma NobodyElse(dir: string, digest: string, id: BlobID)
    requires id != BlobID(digest, EROFS) && id.fsType == EROFS
    ensures !NamedByRow(OneLayerView(dir, digest), id) && !NamedByRootfs(OneLayerView(dir, digest), id)
  {
    var v := OneLayerView(dir, digest);
    assert forall r :: r in v.layers ==> r.digest == digest;
    assert forall image :: !NamesRootfs(v.images, image);
  }

  /** What a complete collection leaves of the files. */
  lemma CompleteCollection(dir: string, v: View) returns (files: Files)
    ensures Collected(dir, v, files)
    ensures forall p :: p in files ==> !Doomed(dir, Referenced(v), p)
  {
    files := map p | p in v.files && !Doomed(dir, Referenced(v), p) :: v.files[p];
  }

  /** `a_b:c` is such a digest: a store with one image, which loads before a collection and not after. */
  lemma UnderscoreExample(dir: string) returns (v: View, files: Files)
    ensures ViewInv(v) && Collected(dir, v, files)
    ensures forall r :: r in v.layers ==> r.digest == "a_b:c"
    ensures Load(dir, v, ImageKey("local", "app")).Loaded?
    ensures Load(dir, v.(files := files), ImageKey("local", "app")).NotLoaded?
  {
    UnderscoreIsMisread("a_b:c", 1);
    v := OneLayerView(dir, "a_b:c");
    OneLayerViewInv(dir, "a_b:c");
    files := CompleteCollection(dir, v);
    MisreadImageIsLost(dir, "a_b:c", files);
  }

  /** There are such digests: an underscore in the algorithm is enough. */
  lemma UnderscoreIsMisread(digest: string, i: nat)
    requires 0 < i < |digest| - 1 && digest[i] == UNDERSCORE
    requires forall j :: 0 <= j < i ==> digest[j] != COLON && digest[j] != SLASH && digest[j] != UNDERSCORE
    ensures Stored(digest).Some? && !WellFormed(digest)
  {
    StoredIs(digest);
    assert IndexByte(Safe(digest), UNDERSCORE) == i;
    EarlyUnderscore(digest, i);
  }

  lemma EarlyUnderscore(digest: string, i: nat)
    requires i < |digest| && digest[i] == UNDERSCORE
    requires forall j :: 0 <= j < i ==> digest[j] != COLON
    ensures !WellFormed(digest)
  {
    forall k | 0 < k < |digest| - 1 ensures !WellFormedAt(digest, k) {
      if k > i {
        assert digest[i] == UNDERSCORE;
      } else {
        assert digest[k] != COLON;
      }
    }
  }

  ghost predicate NamedByRow(v: View, id: BlobID) {
    exists r :: r in v.layers && r.digest == id.digest && NormalizeFSType(r.fsType) == Some(id.fsType)
  }

  ghost predicate NamedByRootfs(v: View, id: BlobID) {
    exists image :: NamesRootfs(v.images, image) && ParseBlobPath(v.images[image].rootfsPath) == Some(id)
  }

  /** A file that is left and parses is named by a layer row or by a rootfs path. */
  lemma LeftoversAreNamed(dir: string, v: View, files: Files, path: string)
    requires RefsAgree(v.layers, v.refs)
    requires forall p :: p in files ==> !Doomed(dir, Referenced(v), p)
    requires path in files && InDir(dir, path) && ParseBlobPath(path).Some?
    ensures var id := ParseBlobPath(path).value;
            NamedByRow(v, id) || NamedByRootfs(v, id)
  {
    var id := ParseBlobPath(path).value;
    assert Key(id) in Referenced(v);
    if Key(id) in RefKeys(v.refs) {
      RefKeyIsRow(v, id);
    } else {
      RootKeyIsImage(v, id);
    }
  }

  lemma AllLeftoversAreNamed(dir: string, v: View, files: Files)
    requires RefsAgree(v.layers, v.refs)
    requires forall p :: p in files ==> !Doomed(dir, Referenced(v), p)
    ensures forall p :: p in files && InDir(dir, p) && ParseBlobPath(p).Some? ==>
              var id := ParseBlobPath(p).value; NamedByRow(v, id) || NamedByRootfs(v, id)
  {
    forall p | p in files && InDir(dir, p) && ParseBlobPath(p).Some?
      ensures var id := ParseBlobPath(p).value; NamedByRow(v, id) || NamedByRootfs(v, id)
    {
      LeftoversAreNamed(dir, v, files, p);
    }
  }

  lemma RootKeyIsImage(v: View, id: BlobID)
    requires id.fsType == EROFS && Key(id) in RootKeys(v.images)
    ensures NamedByRootfs(v, id)
  {
    var image :| image in v.images && NamesRootfs(v.images, image)
                 && Key(ParseBlobPath(v.images[image].rootfsPath).value) == Key(id);
    var named := ParseBlobPath(v.images[image].rootfsPath);
    KeyInjective(named.value, id);
    assert named == Some(id);
  }

  lemma RefKeyIsRow(v: View, id: BlobID)
    requires RefsAgree(v.layers, v.refs) && id.fsType == EROFS && Key(id) in RefKeys(v.refs)
    ensures NamedByRow(v, id)
  {
    var ref :| ref in v.refs && CountedID(v.refs, ref) && Key(BlobID(ref.digest, NormalizeFSType(ref.fsType).value)) == Key(id);
    KeyInjective(BlobID(ref.digest, NormalizeFSType(ref.fsType).value), id);
    CountPositive(v.layers, ref);
    var r :| r in v.layers && IDOf(r) == ref;
  }

  // ----- Layers to be saved

  /** The digest a layer comes with, or the one its path is read back as; "" if there is neither. */
  function DigestOf(layer: LayerRef): string {
    if layer.digest != "" then layer.digest
    else match ParseBlobPath(layer.path) case Some(id) => id.digest case None => ""
  }

  /** A layer saved without a digest has that of the blob its path leads to. */
  lemma DigestFromPath(dir: string, digest: string, layer: LayerRef)
    requires WellFormed(digest)
    ensures layer.digest != "" ==> DigestOf(layer) == layer.digest
    ensures layer.digest == "" && layer.path == BlobPath(dir, digest, EROFS) ==> DigestOf(layer) == digest
    ensures layer.digest == "" && ParseBlobPath(layer.path).None? ==> DigestOf(layer) == ""
  {
    BlobInDir(dir, digest);
    RoundTripExactly(digest);
  }

  function TypeOf(layer: LayerRef): Option<string> {
    NormalizeFSType(if layer.digest == "" && layer.fsType == "" && ParseBlobPath(layer.path).Some?
                    then ParseBlobPath(layer.path).value.fsType else layer.fsType)
  }

  /** A layer with what was missing filled in; none if it has no digest or a type that is not supported. */
  function Normalized(dir: string, files: Files, layer: LayerRef): Option<LayerRef> {
    var digest, fsType := DigestOf(layer), TypeOf(layer);
    if digest == "" || fsType.None? then None
    else
      var path := if layer.path == "" then BlobPath(dir, digest, fsType.value) else layer.path;
      var size := if layer.size <= 0 && path in files then files[path].stored else layer.size;
      Some(LayerRef(digest, fsType.value, size, path))
  }

  predicate Unusable(layer: LayerRef) { DigestOf(layer) == "" || TypeOf(layer).None? }

  predicate SomeUnusable(given: seq<LayerRef>) { exists i :: 0 <= i < |given| && Unusable(given[i]) }

  ghost predicate NormalizedAll(dir: string, files: Files, given: seq<LayerRef>, norm: seq<LayerRef>) {
    |norm| == |given| && forall i :: 0 <= i < |given| ==> Normalized(dir, files, given[i]) == Some(norm[i])
  }

  /** Files were only added, and only under the blob paths of the layers. */
  ghost predicate CacheGrown(dir: string, before: Files, files: Files, norm: seq<LayerRef>) {
    && (forall p :: p in before ==> p in files && files[p] == before[p])
    && (forall p :: p in files && p !in before ==>
          exists i :: 0 <= i < |norm| && p == BlobPath(dir, norm[i].digest, norm[i].fsType))
  }

  /** A layer as it is recorded: in the cache, with the disk space its file takes if it was there or copied. */
  ghost predicate InCache(dir: string, before: Files, files: Files, norm: LayerRef, out: LayerRef) {
    && out.digest == norm.digest && out.fsType == norm.fsType
    && out.path == BlobPath(dir, norm.digest, norm.fsType)
    && (out.path in before || norm.path != out.path ==> out.path in files && out.size == files[out.path].stored)
  }

  /** The layers done so far, as recorded. */
  ghost predicate AllInCache(dir: string, before: Files, files: Files, norm: seq<LayerRef>, out: seq<LayerRef>) {
    && |out| <= |norm|
    && forall i :: 0 <= i < |out| ==> InCache(dir, before, files, norm[i], out[i])
  }

  /** A layer whose blob is not in the cache and cannot be copied there. */
  predicate Uncopyable(dir: string, before: Files, layer: LayerRef, uncopyable: set<string>) {
    var target := BlobPath(dir, layer.digest, layer.fsType);
    target !in before && layer.path != target && (layer.path !in before || target in uncopyable)
  }

  predicate SomeUncopyable(dir: string, before: Files, norm: seq<LayerRef>, uncopyable: set<string>) {
    exists i :: 0 <= i < |norm| && Uncopyable(dir, before, norm[i], uncopyable)
  }

  lemma AllStayInCache(dir: string, before: Files, was: Files, files: Files, norm: seq<LayerRef>, out: seq<LayerRef>)
    requires AllInCache(dir, before, was, norm, out)
    requires forall p :: p in was ==> p in files && files[p] == was[p]
    ensures AllInCache(dir, before, files, norm, out)
  {
    forall i | 0 <= i < |out| ensures InCache(dir, before, files, norm[i], out[i]) {
      StaysInCache(dir, before, was, files, norm[i], out[i]);
    }
  }

  lemma AllInCacheNext(dir: string, before: Files, files: Files, norm: seq<LayerRef>, out: seq<LayerRef>, last: LayerRef)
    requires AllInCache(dir, before, files, norm, out) && |out| < |norm|
    requires InCache(dir, before, files, norm[|out|], last)
    ensures AllInCache(dir, before, files, norm, out + [last])
  {
    var after := out + [last];
    forall i | 0 <= i < |after| ensures InCache(dir, before, files, norm[i], after[i]) {
      assert i < |out| ==> InCache(dir, before, files, norm[i], out[i]);
    }
  }

  lemma GrownNext(dir: string, before: Files, was: Files, files: Files, norm: seq<LayerRef>, i: nat)
    requires i < |norm| && CacheGrown(dir, before, was, norm)
    requires var target := BlobPath(dir, norm[i].digest, norm[i].fsType);
             files == was || (target !in was && target in files && files == was[target := files[target]])
    ensures CacheGrown(dir, before, files, norm)
  {
  }

  lemma StaysInCache(dir: string, before: Files, was: Files, files: Files, norm: LayerRef, out: LayerRef)
    requires InCache(dir, before, was, norm, out)
    requires forall p :: p in was ==> p in files && files[p] == was[p]
    ensures InCache(dir, before, files, norm, out)
  {
  }

  /** The cache lacks the blob of a layer, or has an empty file for it. */
  predicate SomeBlobMissing(dir: string, files: Files, given: seq<LayerRef>) {
    exists i :: 0 <= i < |given| && !FilePresent(files, BlobPath(dir, DigestOf(given[i]), EROFS))
  }

  lemma MissingBlob(dir: string, before: Files, files: Files, given: seq<LayerRef>, norm: seq<LayerRef>,
                    cached: seq<LayerRef>)
    requires NormalizedAll(dir, before, given, norm)
    requires AllInCache(dir, before, files, norm, cached) && |cached| == |norm|
    requires !FilesPresent(files, cached)
    ensures SomeBlobMissing(dir, files, given)
  {
    NormalizedDigests(dir, before, given, norm);
    var i :| 0 <= i < |cached| && !FilePresent(files, cached[i].path);
    assert InCache(dir, before, files, norm[i], cached[i]);
  }

  /** A layer comes with a path at which there is no file. */
  predicate SomeMissing(files: Files, given: seq<LayerRef>) {
    exists i :: 0 <= i < |given| && given[i].path != "" && given[i].path !in files
  }

  lemma UncopyableIsMissing(dir: string, files: Files, given: seq<LayerRef>, norm: seq<LayerRef>, uncopyable: set<string>)
    requires NormalizedAll(dir, files, given, norm) && SomeUncopyable(dir, files, norm, uncopyable)
    ensures uncopyable != {} || SomeMissing(files, given)
  {
    var i :| 0 <= i < |norm| && Uncopyable(dir, files, norm[i], uncopyable);
    assert Normalized(dir, files, given[i]) == Some(norm[i]);
  }

  /** A layer as it is loaded after it was saved. */
  ghost predicate IsSaved(dir: string, before: Files, files: Files, given: LayerRef, loaded: LayerRef) {
    && loaded.digest == DigestOf(given) && loaded.fsType == EROFS
    && loaded.path == BlobPath(dir, loaded.digest, EROFS) && FilePresent(files, loaded.path)
    && (loaded.path in before || (given.path != "" && given.path != loaded.path) ==>
          loaded.size == files[loaded.path].stored)
  }

  /** The rootfs path points to a file that is there, or to none of the blobs being saved. */
  ghost predicate Settled(dir: string, files: Files, rootfsPath: string, given: seq<LayerRef>) {
    rootfsPath in files || forall i :: 0 <= i < |given| ==> rootfsPath != BlobPath(dir, DigestOf(given[i]), EROFS)
  }

  lemma NormalizedDigests(dir: string, files: Files, given: seq<LayerRef>, norm: seq<LayerRef>)
    requires NormalizedAll(dir, files, given, norm)
    ensures forall i :: 0 <= i < |given| ==> norm[i].digest == DigestOf(given[i]) && norm[i].fsType == EROFS
  {
    forall i | 0 <= i < |given| ensures norm[i].digest == DigestOf(given[i]) && norm[i].fsType == EROFS {
      assert Normalized(dir, files, given[i]) == Some(norm[i]);
    }
  }

  lemma NormalizedNext(dir: string, files: Files, given: seq<LayerRef>, norm: seq<LayerRef>, i: nat)
    requires i < |given| && NormalizedAll(dir, files, given[..i], norm)
    ensures match Normalized(dir, files, given[i])
            case None => SomeUnusable(given)
            case Some(layer) => NormalizedAll(dir, files, given[..i + 1], norm + [layer])
  {
    var before, after := given[..i], given[..i + 1];
    assert after == before + [given[i]];
    match Normalized(dir, files, given[i])
    case None =>
      assert Unusable(given[i]);
    case Some(layer) =>
      forall j | 0 <= j < |after| ensures Normalized(dir, files, after[j]) == Some((norm + [layer])[j]) {
        assert j < i ==> Normalized(dir, files, before[j]) == Some(norm[j]);
      }
  }

  lemma NormalizedUsable(dir: string, files: Files, given: seq<LayerRef>, norm: seq<LayerRef>)
    requires NormalizedAll(dir, files, given, norm)
    ensures !SomeUnusable(given)
  {
    forall i | 0 <= i < |given| ensures !Unusable(given[i]) {
      assert Normalized(dir, files, given[i]) == Some(norm[i]);
    }
  }

  /** Copying blobs into the cache changes nothing for an image that loads. */
  lemma GrowthUnseen(dir: string, v: View, files: Files, given: seq<LayerRef>, norm: seq<LayerRef>, image: ImageKey)
    requires NormalizedAll(dir, v.files, given, norm) && CacheGrown(dir, v.files, files, norm)
    requires LoadsWell(dir, v, image) && Settled(dir, v.files, v.images[image].rootfsPath, given)
    ensures LoadsWell(dir, v.(files := files), image)
    ensures Load(dir, v.(files := files), image) == Load(dir, v, image)
  {
    NormalizedDigests(dir, v.files, given, norm);
    var layers := LayersFor(dir, RowsOf(v.layers, image)).value;
    forall i | 0 <= i < |layers| ensures FilePresent(files, layers[i].path) {
      assert FilePresent(v.files, layers[i].path);
    }
    var path := v.images[image].rootfsPath;
    assert path in files <==> path in v.files;
    assert RuntimeLayer(files, path) == RuntimeLayer(v.files, path);
  }

  // ----- The store

  ghost predicate ViewInv(v: View) {
    RefsAgree(v.layers, v.refs) && Numbered(v.layers)
  }

  /** The image's rows, numbered, with the digests, types and sizes of the layers saved. */
  ghost predicate Records(layers: seq<LayerRow>, image: ImageKey, refs: seq<LayerRef>) {
    RowsOf(layers, image) == NewRows(image, refs)
  }

  datatype Status = Done | NotFound | Fault | FilesMissing | Malformed

  class Store {
    const dir: string
    var images: map<ImageKey, ImageRow>
    var layers: seq<LayerRow>
    var refs: map<BlobID, RefRow>
    var files: Files

    ghost function State(): View
      reads this
    {
      View(images, layers, refs, files)
    }

    ghost predicate Valid()
      reads this
    {
      ViewInv(State())
    }

    constructor (dir: string, files: Files)
      ensures Valid() && this.dir == dir && State() == View(map[], [], map[], files)
    {
      this.dir, this.files, images, layers, refs := dir, files, map[], [], map[];
    }

    /** Rebuilds the counts from the layer rows. */
    method SyncLayerRefCounts()
      modifies this`refs
      ensures RefsAgree(layers, refs)
    {
      refs := map[];
      for i := 0 to |layers|
        invariant RefsAgree(layers[..i], refs)
      {
        var row := layers[i];
        var id := IDOf(row);
        assert layers[..i + 1][..i] == layers[..i];
        refs := refs[id := if id in refs
                           then RefRow(refs[id].count + 1, if row.size > refs[id].size then row.size else refs[id].size)
                           else RefRow(1, row.size)];
      }
      assert layers[..|layers|] == layers;
    }

    /** Writes an image and its layers in one transaction. */
    method Upsert(image: ImageKey, row: ImageRow, newLayers: seq<LayerRef>, fault: bool) returns (ok: bool)
      requires Valid()
      modifies this
      ensures Valid() && ok == !fault && files == old(files)
      ensures !ok ==> State() == old(State())
      ensures ok ==> images == old(images)[image := row] && Records(layers, image, newLayers)
      ensures forall other :: other != image ==> RowsOf(layers, other) == RowsOf(old(layers), other)
    {
      if fault {
        return false;
      }
      images := images[image := row];
      ghost var kept := RowsWithout(layers, image);
      layers := RowsWithout(layers, image);
      for ordinal := 0 to |newLayers|
        invariant layers == kept + NewRows(image, newLayers[..ordinal])
        invariant images == old(images)[image := row] && files == old(files)
      {
        var layer := newLayers[ordinal];
        NewRowsNext(image, newLayers, ordinal);
        layers := layers + [LayerRow(image, ordinal, layer.digest, layer.fsType, layer.size)];
      }
      assert newLayers[..|newLayers|] == newLayers;
      ReplacedRows(old(layers), image, newLayers);
      SyncLayerRefCounts();
      ok := true;
    }

    method Delete(image: ImageKey, fault: bool) returns (status: Status)
      requires Valid()
      modifies this
      ensures Valid() && files == old(files)
      ensures status == if fault then Fault else if image in old(images) then Done else NotFound
      ensures !status.Done? ==> State() == old(State())
      ensures status.Done? ==> images == old(images) - {image} && RowsOf(layers, image) == []
      ensures forall other :: other != image ==> RowsOf(layers, other) == RowsOf(old(layers), other)
    {
      if fault {
        return Fault;
      }
      if image !in images {
        return NotFound;
      }
      images := images - {image};
      layers := RowsWithout(layers, image);
      ReplacedRows(old(layers), image, []);
      assert RowsWithout(old(layers), image) + NewRows(image, []) == layers;
      SyncLayerRefCounts();
      return Done;
    }

    /** The keys that the counts protect. */
    method CountedKeys() returns (referenced: set<string>)
      ensures referenced == RefKeys(refs)
    {
      referenced := {};
      var todo := refs.Keys;
      ghost var done: set<BlobID> := {};
      while todo != {}
        invariant todo + done == refs.Keys
        invariant referenced == RefKeysAmong(refs, done)
      {
        var id :| id in todo;
        todo := todo - {id};
        RefKeysNext(refs, done, id);
        done := done + {id};
        if refs[id].count > 0 {
          if id.digest == "" {
            continue;
          }
          var fsType := NormalizeFSType(id.fsType);
          if fsType.None? {
            continue;
          }
          referenced := referenced + {Key(BlobID(id.digest, fsType.value))};
        }
      }
    }

    /** The keys that the rootfs paths protect. */
    method RootfsKeys() returns (referenced: set<string>)
      ensures referenced == RootKeys(images)
    {
      referenced := {};
      var todo := images.Keys;
      ghost var done: set<ImageKey> := {};
      while todo != {}
        invariant todo + done == images.Keys
        invariant referenced == RootKeysAmong(images, done)
      {
        var image :| image in todo;
        todo := todo - {image};
        RootKeysNext(images, done, image);
        done := done + {image};
        var path := images[image].rootfsPath;
        if path != "" {
          var id := ParseBlobPath(path);
          if id.None? {
            continue;
          }
          referenced := referenced + {Key(id.value)};
        }
      }
    }

    /** The keys that protect blobs. */
    method ReferencedKeys() returns (referenced: set<string>)
      ensures referenced == Referenced(State())
    {
      var counted := CountedKeys();
      var named := RootfsKeys();
      return counted + named;
    }

    /** Whether a path is a blob, or a file of a type no longer supported, that nothing refers to. */
    method IsGarbage(referenced: set<string>, path: string) returns (yes: bool)
      ensures yes <==> Doomed(dir, referenced, path)
    {
      if !InDir(dir, path) {
        return false;
      }
      var id := ParseBlobPath(path);
      if id.None? {
        return Legacy(EntryName(dir, path));
      }
      return Key(id.value) !in referenced;
    }

    /**
      Removes the blobs nothing refers to, in the arbitrary order of a directory, and stops with an error at
      the first one that cannot be removed.
     */
    method Prune(undeletable: set<string>) returns (removed: nat, ok: bool)
      requires Valid()
      modifies this`files
      ensures Valid() && Collected(dir, old(State()), files)
      ensures ok ==> forall p :: p in files ==> !Doomed(dir, Referenced(State()), p)
      ensures !ok ==> exists p :: p in undeletable && p in files && Doomed(dir, Referenced(State()), p)
      ensures removed + |files| == |old(files)|
    {
      var referenced := ReferencedKeys();
      removed := 0;
      var todo := files.Keys;
      while todo != {}
        invariant todo <= files.Keys
        invariant Collected(dir, old(State()), files)
        invariant Examined(dir, referenced, files, todo)
        invariant removed + |files| == |old(files)|
      {
        var path :| path in todo;
        todo := todo - {path};
        var garbage := IsGarbage(referenced, path);
        if !garbage {
          continue;
        }
        if path in undeletable {
          return removed, false;
        }
        RemoveOne(dir, old(State()), files, todo, path);
        files := files - {path};
        removed := removed + 1;
      }
      ok := true;
    }

    /** Collecting twice: the first time all garbage goes, the second time there is none and nothing can go wrong. */
    method GarbageCollectTwice(undeletable: set<string>) returns (first: nat, second: nat, ok: bool)
      requires Valid()
      modifies this`files
      ensures Valid() && Collected(dir, old(State()), files)
      ensures first + |files| == |old(files)|
      ensures ok ==> second == 0 && forall p :: p in files ==> !Doomed(dir, Referenced(State()), p)
      ensures !ok ==> exists p :: p in undeletable && p in files && Doomed(dir, Referenced(State()), p)
    {
      first, ok := Prune(undeletable);
      second := 0;
      if ok {
        ghost var kept := files;
        var again;
        second, again := Prune(undeletable);
        assert again && files == kept;
      }
    }

    method GetLayers(image: ImageKey) returns (r: Option<seq<LayerRef>>)
      ensures r == LayersFor(dir, RowsOf(layers, image))
    {
      var rows := RowsOf(layers, image);
      var loaded: seq<LayerRef> := [];
      assert LayersFor(dir, rows[..0]).value == loaded;
      for i := 0 to |rows|
        invariant LayersFor(dir, rows[..i]) == Some(loaded)
      {
        LayersStep(dir, rows, i);
        if NormalizeFSType(rows[i].fsType).None? {
          return None;
        }
        loaded := loaded + [LayerFor(dir, rows[i])];
      }
      assert rows[..|rows|] == rows;
      return Some(loaded);
    }

    method EnsureLayerFilesExist(loaded: seq<LayerRef>) returns (ok: bool)
      ensures ok <==> FilesPresent(files, loaded)
    {
      for i := 0 to |loaded|
        invariant forall j :: 0 <= j < i ==> FilePresent(files, loaded[j].path)
      {
        if !FilePresent(files, loaded[i].path) {
          return false;
        }
      }
      return true;
    }

    method Get(image: ImageKey) returns (r: Loaded)
      ensures r == Load(dir, State(), image)
    {
      if image !in images {
        return NotLoaded(ImageNotFound);
      }
      var loaded := GetLayers(image);
      if loaded.None? {
        return NotLoaded(UnsupportedFS);
      }
      if |loaded.value| == 0 {
        return NotLoaded(ImageNotFound);
      }
      var ok := EnsureLayerFilesExist(loaded.value);
      if !ok {
        return NotLoaded(MissingLayer);
      }
      return Loaded(ResultFor(files, images[image], loaded.value));
    }

    /** Removing a tag and pruning: every other image that loaded before loads with the same result. */
    method Remove(image: ImageKey, fault: bool, undeletable: set<string>) returns (status: Status)
      requires Valid()
      modifies this
      ensures Valid()
      ensures status.NotFound? <==> !fault && image !in old(images)
      ensures status.Done? || status.NotFound? || status.Fault?
      ensures status.Fault? ==> fault || undeletable != {}
      ensures status.NotFound? || fault ==> State() == old(State())
      ensures status.Done? ==> images == old(images) - {image} && RowsOf(layers, image) == []
      ensures forall other :: other != image ==> RowsOf(layers, other) == RowsOf(old(layers), other)
      ensures forall other :: other != image && LoadsWell(dir, old(State()), other) ==>
                Load(dir, State(), other) == Load(dir, old(State()), other)
      ensures status.Done? ==> forall p :: p in files && InDir(dir, p) && ParseBlobPath(p).Some? ==>
                var id := ParseBlobPath(p).value; NamedByRow(State(), id) || NamedByRootfs(State(), id)
    {
      status := Delete(image, fault);
      if !status.Done? {
        return;
      }
      ghost var v := State();
      var removed, ok := Prune(undeletable);
      OthersLoad(dir, old(State()), v, files, image);
      if !ok {
        return Fault;
      }
      AllLeftoversAreNamed(dir, v, files);
    }

    /** Fills in what is missing in the layers to be saved. */
    method NormalizeLayerRefs(given: seq<LayerRef>) returns (r: Option<seq<LayerRef>>)
      ensures r.None? ==> SomeUnusable(given)
      ensures r.Some? ==> NormalizedAll(dir, files, given, r.value)
    {
      var norm: seq<LayerRef> := [];
      for i := 0 to |given|
        invariant NormalizedAll(dir, files, given[..i], norm)
      {
        var layer := Normalized(dir, files, given[i]);
        NormalizedNext(dir, files, given, norm, i);
        if layer.None? {
          return None;
        }
        norm := norm + [layer.value];
      }
      assert given[..|given|] == given;
      return Some(norm);
    }

    /** Copies a file to a path where there is none; the copy may take another amount of disk space. */
    method CopyBlob(src: string, target: string, fault: bool) returns (ok: bool)
      requires target !in files
      modifies this`files
      ensures ok <==> src in old(files) && !fault
      ensures !ok ==> files == old(files)
      ensures ok ==> target in files && files == old(files)[target := files[target]]
                     && files[target].size == old(files)[src].size
    {
      if src !in files || fault {
        return false;
      }
      var stored: nat := *;
      files := files[target := File(files[src].size, stored)];
      return true;
    }

    /** Copies into the cache what is not there yet. */
    method EnsureLayersInCache(norm: seq<LayerRef>, uncopyable: set<string>) returns (ok: bool, out: seq<LayerRef>)
      modifies this`files
      ensures if ok then |out| == |norm| else |out| < |norm| && SomeUncopyable(dir, old(files), norm, uncopyable)
      ensures CacheGrown(dir, old(files), files, norm) && AllInCache(dir, old(files), files, norm, out)
    {
      out := [];
      for i := 0 to |norm|
        invariant CacheGrown(dir, old(files), files, norm)
        invariant |out| == i && AllInCache(dir, old(files), files, norm, out)
      {
        var layer := norm[i];
        var target := BlobPath(dir, layer.digest, layer.fsType);
        ghost var was := files;
        if layer.path != target && target !in files {
          ok := CopyBlob(layer.path, target, target in uncopyable);
          if !ok {
            assert Uncopyable(dir, old(files), layer, uncopyable);
            return;
          }
        }
        GrownNext(dir, old(files), was, files, norm, i);
        AllStayInCache(dir, old(files), was, files, norm, out);
        var size := if target in files then files[target].stored else layer.size;
        layer := LayerRef(layer.digest, layer.fsType, size, target);
        AllInCacheNext(dir, old(files), files, norm, out, layer);
        out := out + [layer];
      }
      ok := true;
    }

    /**
      Saves an image and prunes. Every layer saved can be loaded, under the digest it came with or was read
      from its path; every other image that loaded before loads with the same result, unless its rootfs path
      waited for a blob that is only now there.
     */
    method Save(image: ImageKey, row: ImageRow, given: seq<LayerRef>, fault: bool,
                uncopyable: set<string>, undeletable: set<string>)
      returns (status: Status)
      requires Valid()
      modifies this
      ensures Valid()
      ensures status.Malformed? <==> SomeUnusable(given)
      ensures status.Malformed? ==> State() == old(State())
      ensures status.FilesMissing? ==> State() == old(State()).(files := files)
      ensures given == [] ==> status.FilesMissing? && files == old(files)
      ensures !status.NotFound? && (status.FilesMissing? ==> given == [] || SomeBlobMissing(dir, files, given))
      ensures status.Fault? ==> fault || undeletable != {} || uncopyable != {} || SomeMissing(old(files), given)
      ensures status.Done? && (forall l :: l in given ==> WellFormed(DigestOf(l))) ==>
                var r := Load(dir, State(), image);
                && r.Loaded? && |r.result.canonicalLayers| == |given|
                && r.result.digest == row.digest && r.result.oci == row.oci
                && forall i :: 0 <= i < |given| ==>
                     IsSaved(dir, old(files), files, given[i], r.result.canonicalLayers[i])
      ensures forall other ::
                (other != image && LoadsWell(dir, old(State()), other)
                 && Settled(dir, old(files), old(images)[other].rootfsPath, given))
                ==> Load(dir, State(), other) == Load(dir, old(State()), other)
    {
      var norm := NormalizeLayerRefs(given);
      if norm.None? {
        return Malformed;
      }
      ghost var before := State();
      NormalizedDigests(dir, files, given, norm.value);
      NormalizedUsable(dir, files, given, norm.value);
      var ok, cached := EnsureLayersInCache(norm.value, uncopyable);
      ghost var grown := State();
      forall other | LoadsWell(dir, before, other) && Settled(dir, before.files, before.images[other].rootfsPath, given)
        ensures LoadsWell(dir, grown, other) && Load(dir, grown, other) == Load(dir, before, other)
      {
        GrowthUnseen(dir, before, files, given, norm.value, other);
      }
      if !ok {
        UncopyableIsMissing(dir, before.files, given, norm.value, uncopyable);
        return Fault;
      }
      if given != [] && !FilesPresent(files, cached) {
        MissingBlob(dir, before.files, files, given, norm.value, cached);
      }
      ghost var v;
      status, v := SaveCached(image, row, cached, fault, undeletable);
      OthersLoad(dir, grown, v, files, image);
      if status.Done? {
        SavedLoads(dir, before.files, v, files, image, given, norm.value, cached);
      }
    }

    /** The part of saving an image after its layers are in the cache; `v` is the state before the collection. */
    method SaveCached(image: ImageKey, row: ImageRow, newLayers: seq<LayerRef>, fault: bool, undeletable: set<string>)
      returns (status: Status, ghost v: View)
      requires Valid()
      modifies this
      ensures Valid() && (status.FilesMissing? || status.Fault? || status.Done?)
      ensures status.FilesMissing? <==> newLayers == [] || !FilesPresent(old(files), newLayers)
      ensures status.FilesMissing? ==> State() == old(State())
      ensures status.Fault? ==> fault || undeletable != {}
      ensures ViewInv(v) && State() == v.(files := files) && Collected(dir, v, files)
      ensures v.files == old(files) && v.images - {image} == old(images) - {image}
      ensures forall other :: other != image ==> RowsOf(v.layers, other) == RowsOf(old(layers), other)
      ensures status.Done? ==> image in v.images && Records(v.layers, image, newLayers)
                               && v.images[image].digest == row.digest && v.images[image].oci == row.oci
    {
      v := State();
      if |newLayers| == 0 || !FilesPresent(files, newLayers) {
        return FilesMissing, v;
      }
      var meta := if row.size <= 0 then row.(size := SizeFromLayers(newLayers)) else row;
      var ok := Upsert(image, meta, newLayers, fault);
      v := State();
      UpdatedElsewhere(old(images), image, meta);
      if !ok {
        return Fault, v;
      }
      var removed;
      removed, ok := Prune(undeletable);
      status := if ok then Done else Fault;
    }
  }

  /** After saving and a collection, the image loads with the layers saved if their digests are well formed. */
  lemma SavedLoads(dir: string, before: Files, v: View, files: Files, image: ImageKey,
                   given: seq<LayerRef>, norm: seq<LayerRef>, cached: seq<LayerRef>)
    requires ViewInv(v) && Collected(dir, v, files)
    requires NormalizedAll(dir, before, given, norm) && AllInCache(dir, before, v.files, norm, cached) && |cached| == |norm|
    requires image in v.images && Records(v.layers, image, cached)
    requires cached != [] && FilesPresent(v.files, cached)
    ensures (forall l :: l in given ==> WellFormed(DigestOf(l))) ==>
              var r := Load(dir, v.(files := files), image);
              && r.Loaded? && |r.result.canonicalLayers| == |given|
              && r.result.digest == v.images[image].digest && r.result.oci == v.images[image].oci
              && forall i :: 0 <= i < |given| ==> IsSaved(dir, before, files, given[i], r.result.canonicalLayers[i])
  {
    forall i | 0 <= i < |given|
      ensures cached[i].digest == DigestOf(given[i]) && IsSaved(dir, before, v.files, given[i], cached[i])
    {
      CachedIsSaved(dir, before, v.files, given[i], norm[i], cached[i]);
    }
    if forall l :: l in given ==> WellFormed(DigestOf(l)) {
      forall l | l in cached
        ensures WellFormed(l.digest) && l.fsType == EROFS && l.path == BlobPath(dir, l.digest, EROFS)
      {
        var i :| 0 <= i < |cached| && cached[i] == l;
        assert given[i] in given && IsSaved(dir, before, v.files, given[i], cached[i]);
      }
      SavedSurvives(dir, v, files, image, cached);
      forall i | 0 <= i < |given| ensures IsSaved(dir, before, files, given[i], cached[i]) {
        StillSaved(dir, before, v.files, files, given[i], cached[i]);
      }
    }
  }

  lemma CachedIsSaved(dir: string, before: Files, files: Files, given: LayerRef, norm: LayerRef, cached: LayerRef)
    requires Normalized(dir, before, given) == Some(norm) && InCache(dir, before, files, norm, cached)
    requires FilePresent(files, cached.path)
    ensures cached.digest == DigestOf(given) && IsSaved(dir, before, files, given, cached)
  {
  }

  lemma StillSaved(dir: string, before: Files, was: Files, files: Files, given: LayerRef, cached: LayerRef)
    requires IsSaved(dir, before, was, given, cached)
    requires FilePresent(files, cached.path) && files[cached.path] == was[cached.path]
    ensures IsSaved(dir, before, files, given, cached)
  {
  }

  lemma SavedSurvives(dir: string, v: View, files: Files, image: ImageKey, cached: seq<LayerRef>)
    requires ViewInv(v) && Collected(dir, v, files)
    requires image in v.images && Records(v.layers, image, cached)
    requires cached != [] && FilesPresent(v.files, cached)
    requires forall l :: l in cached ==>
               WellFormed(l.digest) && l.fsType == EROFS && l.path == BlobPath(dir, l.digest, EROFS)
    ensures FilesPresent(files, cached)
    ensures var r := Load(dir, v.(files := files), image);
            && r.Loaded? && r.result.canonicalLayers == cached
            && r.result.digest == v.images[image].digest && r.result.oci == v.images[image].oci
  {
    LoadsWhatWasSaved(dir, v, image, cached);
    CollectionIsSafe(dir, v, files, image);
    LayersOfLoaded(dir, v.(files := files), image);
  }

  lemma LayersOfLoaded(dir: string, v: View, image: ImageKey)
    requires Load(dir, v, image).Loaded?
    ensures FilesPresent(v.files, Load(dir, v, image).result.canonicalLayers)
  {
  }

  lemma UpdatedElsewhere(images: map<ImageKey, ImageRow>, image: ImageKey, row: ImageRow)
    ensures images[image := row] - {image} == images - {image}
  {
  }

  /** No file is garbage but those still to be looked at. */
  ghost predicate Examined(dir: string, referenced: set<string>, files: Files, todo: set<string>) {
    forall p :: p in files && p !in todo ==> !Doomed(dir, referenced, p)
  }

  lemma RemoveOne(dir: string, v: View, files: Files, todo: set<string>, path: string)
    requires Collected(dir, v, files) && Examined(dir, Referenced(v), files, todo + {path})
    requires path in files && path !in todo && Doomed(dir, Referenced(v), path)
    ensures Collected(dir, v, files - {path}) && Examined(dir, Referenced(v), files - {path}, todo)
    ensures |files - {path}| == |files| - 1
  {
    var rest := files - {path};
    assert rest.Keys == files.Keys - {path};
    assert |rest.Keys| == |rest| && |files.Keys| == |files|;
  }

  /** Clearing an image's rows and writing new ones keeps all rows numbered, and other images' rows. */
  lemma ReplacedRows(layers: seq<LayerRow>, image: ImageKey, refs: seq<LayerRef>)
    requires Numbered(layers)
    ensures var after := RowsWithout(layers, image) + NewRows(image, refs);
            && Numbered(after)
            && RowsOf(after, image) == NewRows(image, refs)
            && forall other :: other != image ==> RowsOf(after, other) == RowsOf(layers, other)
  {
    var kept, added := RowsWithout(layers, image), NewRows(image, refs);
    forall other ensures RowsOf(kept + added, other) == if other == image then added else RowsOf(layers, other) {
      RowsOfWithout(layers, image, other);
      RowsOfOne(added, image, other);
      RowsOfConcat(kept, added, other);
    }
  }

  /** Changing one image's rows, then collecting, changes no result of another one. */
  lemma OthersLoad(dir: string, before: View, v: View, files: Files, image: ImageKey)
    requires ViewInv(v) && v.files == before.files && Collected(dir, v, files)
    requires forall other :: other != image ==> RowsOf(v.layers, other) == RowsOf(before.layers, other)
    requires v.images - {image} == before.images - {image}
    ensures forall other :: other != image && LoadsWell(dir, before, other) ==>
              Load(dir, v.(files := files), other) == Load(dir, before, other)
  {
    forall other | other != image && LoadsWell(dir, before, other)
      ensures Load(dir, v.(files := files), other) == Load(dir, before, other)
    {
      assert other in before.images - {image} && other in v.images - {image};
      assert v.images[other] == (v.images - {image})[other] == before.images[other];
      assert Load(dir, v, other) == Load(dir, before, other);
      CollectionIsSafe(dir, v, files, other);
    }
  }

  lemma LoadsWhatWasSaved(dir: string, v: View, image: ImageKey, newLayers: seq<LayerRef>)
    requires image in v.images && Records(v.layers, image, newLayers)
    requires newLayers != [] && FilesPresent(v.files, newLayers)
    requires forall l :: l in newLayers ==> l.fsType == EROFS && l.path == BlobPath(dir, l.digest, EROFS)
    ensures var r := Load(dir, v, image);
            && r.Loaded? && r.result.canonicalLayers == newLayers
            && r.result.digest == v.images[image].digest && r.result.oci == v.images[image].oci
    ensures (forall l :: l in newLayers ==> WellFormed(l.digest)) ==> WellFormedImage(v.layers, image)
  {
    var rows := RowsOf(v.layers, image);
    forall i | 0 <= i < |rows| ensures NormalizeFSType(rows[i].fsType).Some? && LayerFor(dir, rows[i]) == newLayers[i] {
      assert newLayers[i] in newLayers;
    }
    assert LayersFor(dir, rows).value == newLayers;
  }
}
