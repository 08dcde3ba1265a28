/**
  Several processes on one image cache. A save copies blobs into the cache, checks that they are there and
  commits its rows; a collection reads the reference counts, then the rootfs paths, then the directory, and
  removes files one by one. Nothing but the database keeps them apart, so they interleave anywhere in between.
 */
module ImageSharing {
  import opened BlobNames
  import opened ImageStore
  import opened Wrappers

  /** What a process is in the middle of. */
  datatype Task =
    | Idle
    | Checked(image: ImageKey, row: ImageRow, layers: seq<LayerRef>) // a save whose files were all there
    | Counted(keys: set<string>)                                     // a collection that has read the counts
    | Rooted(keys: set<string>)                                      // and the rootfs paths
    | Listed(keys: set<string>, todo: set<string>)                   // and the directory

  datatype State = State(dir: string, view: View, tasks: seq<Task>)

  datatype Step =
    | AddBlob(digest: string, file: File)
    | Check(i: nat, image: ImageKey, row: ImageRow, layers: seq<LayerRef>)
    | Commit(i: nat)
    | Delete(image: ImageKey)
    | ReadCounts(i: nat)
    | ReadRootfs(i: nat)
    | ListBlobs(i: nat)
    | RemoveFile(i: nat, path: string)
    | Finish(i: nat) // the end of a collection, or an error anywhere

  // ----- The transactions, as functions

  /** The GROUP BY of the layer rows. */
  ghost function Grouped(layers: seq<LayerRow>): map<BlobID, RefRow> {
    map r | r in layers && Count(layers, IDOf(r)) > 0 :: IDOf(r) := RefRow(Count(layers, IDOf(r)), MaxSize(layers, IDOf(r)))
  }

  lemma GroupedAgrees(layers: seq<LayerRow>)
    ensures RefsAgree(layers, Grouped(layers))
  {
    forall id
      ensures id in Grouped(layers) <==> Count(layers, id) > 0
      ensures id in Grouped(layers) ==> Grouped(layers)[id] == RefRow(Count(layers, id), MaxSize(layers, id))
    {
      CountPositive(layers, id);
    }
  }

  /** Counts that agree with the rows are these. */
  lemma GroupedIsOnly(layers: seq<LayerRow>, refs: map<BlobID, RefRow>)
    requires RefsAgree(layers, refs)
    ensures refs == Grouped(layers)
  {
    GroupedAgrees(layers);
    assert forall id :: id in refs <==> id in Grouped(layers);
  }

  ghost function WithRows(v: View, images: map<ImageKey, ImageRow>, image: ImageKey, layers: seq<LayerRef>): View {
    var rows := RowsWithout(v.layers, image) + NewRows(image, layers);
    View(images, rows, Grouped(rows), v.files)
  }

  lemma WithRowsInv(v: View, images: map<ImageKey, ImageRow>, image: ImageKey, layers: seq<LayerRef>)
    requires ViewInv(v)
    ensures ViewInv(WithRows(v, images, image, layers))
    ensures Records(WithRows(v, images, image, layers).layers, image, layers)
    ensures forall other :: other != image ==>
              RowsOf(WithRows(v, images, image, layers).layers, other) == RowsOf(v.layers, other)
  {
    ReplacedRows(v.layers, image, layers);
    GroupedAgrees(RowsWithout(v.layers, image) + NewRows(image, layers));
  }

  // ----- Steps

  /** Layers as a save records them. */
  predicate InBlobs(dir: string, layers: seq<LayerRef>) {
    layers != [] && forall l :: l in layers ==> l.fsType == EROFS && l.path == BlobPath(dir, l.digest, EROFS)
  }

  predicate IsTaskStep(step: Step) { !step.AddBlob? && !step.Delete? }

  predicate Enabled(s: State, step: Step) {
    && (IsTaskStep(step) ==> step.i < |s.tasks|)
    && match step
       case AddBlob(digest, _) => BlobPath(s.dir, digest, EROFS) !in s.view.files
       case Check(i, _, _, layers) => s.tasks[i].Idle? && InBlobs(s.dir, layers) && FilesPresent(s.view.files, layers)
       case Commit(i) => s.tasks[i].Checked?
       case Delete(image) => image in s.view.images
       case ReadCounts(i) => s.tasks[i].Idle?
       case ReadRootfs(i) => s.tasks[i].Counted?
       case ListBlobs(i) => s.tasks[i].Rooted?
       case RemoveFile(i, path) =>
         s.tasks[i].Listed? && path in s.tasks[i].todo && path in s.view.files && Doomed(s.dir, s.tasks[i].keys, path)
       case Finish(i) => true
  }

  ghost function NewView(s: State, step: Step): View
    requires Enabled(s, step)
  {
    var v := s.view;
    match step
    case AddBlob(digest, file) => v.(files := v.files[BlobPath(s.dir, digest, EROFS) := file])
    case Commit(i) =>
      WithRows(v, v.images[s.tasks[i].image := s.tasks[i].row], s.tasks[i].image, s.tasks[i].layers)
    case Delete(image) => WithRows(v, v.images - {image}, image, [])
    case RemoveFile(_, path) => v.(files := v.files - {path})
    case _ => v
  }

  function NewTask(s: State, step: Step): Task
    requires Enabled(s, step) && IsTaskStep(step)
  {
    match step
    case Check(_, image, row, layers) => Checked(image, row, layers)
    case ReadCounts(_) => Counted(RefKeys(s.view.refs))
    case ReadRootfs(i) => Rooted(s.tasks[i].keys + RootKeys(s.view.images))
    case ListBlobs(i) => Listed(s.tasks[i].keys, s.view.files.Keys)
    case RemoveFile(i, path) => Listed(s.tasks[i].keys, s.tasks[i].todo - {path})
    case _ => Idle
  }

  ghost function After(s: State, step: Step): State
    requires Enabled(s, step)
  {
    State(s.dir, NewView(s, step), if IsTaskStep(step) then s.tasks[step.i := NewTask(s, step)] else s.tasks)
  }

  /** The step saves or removes this image. */
  predicate Touches(s: State, step: Step, image: ImageKey)
    requires Enabled(s, step)
  {
    (step.Commit? && s.tasks[step.i].image == image) || step == Delete(image)
  }

  ghost predicate Inv(s: State) {
    && ViewInv(s.view)
    && forall i :: 0 <= i < |s.tasks| && s.tasks[i].Checked? ==> InBlobs(s.dir, s.tasks[i].layers)
  }

  lemma StepView(s: State, step: Step)
    requires ViewInv(s.view) && Enabled(s, step)
    ensures ViewInv(After(s, step).view)
  {
    if step.Commit? {
      var task := s.tasks[step.i];
      WithRowsInv(s.view, s.view.images[task.image := task.row], task.image, task.layers);
    } else if step.Delete? {
      WithRowsInv(s.view, s.view.images - {step.image}, step.image, []);
    }
  }

  lemma StepInv(s: State, step: Step)
    requires Inv(s) && Enabled(s, step)
    ensures Inv(After(s, step))
  {
    StepView(s, step);
    assert forall i :: 0 <= i < |s.tasks| && !(IsTaskStep(step) && step.i == i) ==> After(s, step).tasks[i] == s.tasks[i];
  }

  /** A step that does not touch an image leaves its rows alone. */
  lemma StepKeepsRows(s: State, step: Step, image: ImageKey)
    requires ViewInv(s.view) && Enabled(s, step) && !Touches(s, step, image) && image in s.view.images
    ensures var v := After(s, step).view;
            image in v.images && v.images[image] == s.view.images[image]
            && RowsOf(v.layers, image) == RowsOf(s.view.layers, image)
  {
    if step.Commit? {
      var task := s.tasks[step.i];
      WithRowsInv(s.view, s.view.images[task.image := task.row], task.image, task.layers);
    } else if step.Delete? {
      WithRowsInv(s.view, s.view.images - {step.image}, step.image, []);
    }
  }

  // ----- When an image is in danger

  /** The keys the image's own rootfs path protects. */
  function OwnKeys(v: View, image: ImageKey): set<string> { RootKeysAmong(v.images, {image}) }

  /** The collection will remove, or may, the file at this path. */
  predicate Threatens(dir: string, task: Task, own: set<string>, path: string) {
    match task
    case Counted(keys) => Doomed(dir, keys + own, path)
    case Rooted(keys) => Doomed(dir, keys, path)
    case Listed(keys, todo) => path in todo && Doomed(dir, keys, path)
    case _ => false
  }

  /** The files of an image. */
  ghost function BlobPaths(dir: string, v: View, image: ImageKey): set<string> {
    set r | r in RowsOf(v.layers, image) :: BlobPath(dir, r.digest, EROFS)
  }

  ghost predicate ThreatensSome(dir: string, task: Task, own: set<string>, paths: set<string>) {
    exists p :: p in paths && Threatens(dir, task, own, p)
  }

  ghost predicate ThreatenedBy(s: State, image: ImageKey, i: nat)
    requires i < |s.tasks|
  {
    ThreatensSome(s.dir, s.tasks[i], OwnKeys(s.view, image), BlobPaths(s.dir, s.view, image))
  }

  ghost predicate Threatened(s: State, image: ImageKey) {
    exists i :: 0 <= i < |s.tasks| && ThreatenedBy(s, image, i)
  }

  /** The image loads, its digests are well formed, and no collection under way endangers it. */
  ghost predicate Safe(s: State, image: ImageKey) {
    LoadsWell(s.dir, s.view, image) && !Threatened(s, image)
  }

  lemma FilesOfRows(dir: string, files: Files, rows: seq<LayerRow>)
    requires Supported(rows)
    ensures FilesPresent(files, LayersFor(dir, rows).value)
            <==> forall r :: r in rows ==> FilePresent(files, BlobPath(dir, r.digest, EROFS))
  {
    var layers := LayersFor(dir, rows).value;
    forall i | 0 <= i < |rows| ensures layers[i].path == BlobPath(dir, rows[i].digest, EROFS) {
      PathOfRow(dir, rows[i]);
    }
    if forall r :: r in rows ==> FilePresent(files, BlobPath(dir, r.digest, EROFS)) {
      forall i | 0 <= i < |layers| ensures FilePresent(files, layers[i].path) { assert rows[i] in rows; }
    }
    if FilesPresent(files, layers) {
      forall r | r in rows ensures FilePresent(files, BlobPath(dir, r.digest, EROFS)) {
        var i :| 0 <= i < |rows| && rows[i] == r;
        assert FilePresent(files, layers[i].path);
      }
    }
  }

  lemma PathOfRow(dir: string, row: LayerRow)
    requires NormalizeFSType(row.fsType).Some?
    ensures LayerFor(dir, row).path == BlobPath(dir, row.digest, EROFS)
  {
  }

  ghost predicate AllPresent(files: Files, paths: set<string>) {
    forall p :: p in paths ==> FilePresent(files, p)
  }

  /** The image is in the database with layers of supported types. */
  ghost predicate Known(v: View, image: ImageKey) {
    image in v.images && RowsOf(v.layers, image) != [] && Supported(RowsOf(v.layers, image))
  }

  /** An image in the database loads exactly if its files are there. */
  lemma LoadsExactly(dir: string, v: View, image: ImageKey)
    ensures Load(dir, v, image).Loaded? <==> Known(v, image) && AllPresent(v.files, BlobPaths(dir, v, image))
  {
    if Known(v, image) {
      FilesOfRows(dir, v.files, RowsOf(v.layers, image));
      assert AllPresent(v.files, BlobPaths(dir, v, image))
             <==> forall r :: r in RowsOf(v.layers, image) ==> FilePresent(v.files, BlobPath(dir, r.digest, EROFS));
    }
  }

  /** What decides, beside the files, what an image loads as. */
  ghost predicate SameRecord(v: View, v': View, image: ImageKey) {
    && image in v.images && image in v'.images && v.images[image] == v'.images[image]
    && RowsOf(v.layers, image) == RowsOf(v'.layers, image)
  }

  lemma StepKeepsRecord(s: State, step: Step, image: ImageKey)
    requires ViewInv(s.view) && Enabled(s, step) && !Touches(s, step, image) && image in s.view.images
    ensures SameRecord(s.view, After(s, step).view, image)
  {
    StepKeepsRows(s, step, image);
  }

  lemma SamePaths(dir: string, v: View, v': View, image: ImageKey)
    requires SameRecord(v, v', image)
    ensures BlobPaths(dir, v, image) == BlobPaths(dir, v', image) && OwnKeys(v, image) == OwnKeys(v', image)
    ensures Known(v, image) == Known(v', image)
    ensures WellFormedImage(v.layers, image) == WellFormedImage(v'.layers, image)
  {
  }

  /** No step takes a file that no collection threatens. */
  lemma StepKeepsFile(s: State, step: Step, own: set<string>, path: string)
    requires Enabled(s, step) && FilePresent(s.view.files, path)
    requires forall i :: 0 <= i < |s.tasks| ==> !Threatens(s.dir, s.tasks[i], own, path)
    ensures FilePresent(After(s, step).view.files, path)
  {
    if step.RemoveFile? {
      assert !Threatens(s.dir, s.tasks[step.i], own, path);
    }
  }

  lemma UnthreatenedPath(s: State, image: ImageKey, path: string)
    requires !Threatened(s, image) && path in BlobPaths(s.dir, s.view, image)
    ensures forall i :: 0 <= i < |s.tasks| ==> !Threatens(s.dir, s.tasks[i], OwnKeys(s.view, image), path)
  {
    forall i | 0 <= i < |s.tasks| ensures !Threatens(s.dir, s.tasks[i], OwnKeys(s.view, image), path) {
      assert !ThreatenedBy(s, image, i);
    }
  }

  lemma StepKeepsFiles(s: State, step: Step, image: ImageKey)
    requires Enabled(s, step) && !Threatened(s, image) && AllPresent(s.view.files, BlobPaths(s.dir, s.view, image))
    ensures AllPresent(After(s, step).view.files, BlobPaths(s.dir, s.view, image))
  {
    forall p | p in BlobPaths(s.dir, s.view, image) ensures FilePresent(After(s, step).view.files, p) {
      UnthreatenedPath(s, image, p);
      StepKeepsFile(s, step, OwnKeys(s.view, image), p);
    }
  }

  lemma StepKeepsLoading(s: State, step: Step, image: ImageKey)
    requires ViewInv(s.view) && Safe(s, image) && Enabled(s, step) && !Touches(s, step, image)
    ensures LoadsWell(s.dir, After(s, step).view, image)
    ensures SameRecord(s.view, After(s, step).view, image)
  {
    LoadsExactly(s.dir, s.view, image);
    LoadsExactly(s.dir, After(s, step).view, image);
    StepKeepsRecord(s, step, image);
    SamePaths(s.dir, s.view, After(s, step).view, image);
    StepKeepsFiles(s, step, image);
  }

  /** The counts alone protect the file of a well-formed digest in a layer row. */
  lemma CountsProtect(dir: string, v: View, row: LayerRow)
    requires RefsAgree(v.layers, v.refs) && row in v.layers
    requires WellFormed(row.digest) && NormalizeFSType(row.fsType).Some?
    ensures !Doomed(dir, RefKeys(v.refs), BlobPath(dir, row.digest, EROFS))
  {
    RoundTripExactly(row.digest);
    CountPositive(v.layers, IDOf(row));
    assert CountedID(v.refs, IDOf(row));
    assert Key(BlobID(row.digest, EROFS)) in RefKeysAmong(v.refs, v.refs.Keys);
    DoomedBlob(dir, RefKeys(v.refs), row.digest);
  }

  lemma CountsProtectImage(dir: string, v: View, image: ImageKey, path: string)
    requires RefsAgree(v.layers, v.refs) && Known(v, image) && WellFormedImage(v.layers, image)
    requires path in BlobPaths(dir, v, image)
    ensures !Doomed(dir, RefKeys(v.refs), path)
  {
    var r :| r in RowsOf(v.layers, image) && path == BlobPath(dir, r.digest, EROFS);
    RowsOfAreRows(v.layers, image);
    CountsProtect(dir, v, r);
  }

  /** More references doom fewer files. */
  lemma MoreKeys(dir: string, keys: set<string>, more: set<string>, path: string)
    requires keys <= more
    ensures Doomed(dir, more, path) ==> Doomed(dir, keys, path)
  {
  }

  /** What a collection does next endangers no file that it did not endanger, and a new one endangers none. */
  lemma NextTaskThreatens(s: State, step: Step, image: ImageKey, path: string)
    requires ViewInv(s.view) && Known(s.view, image) && WellFormedImage(s.view.layers, image)
    requires path in BlobPaths(s.dir, s.view, image) && Enabled(s, step) && IsTaskStep(step)
    ensures Threatens(s.dir, NewTask(s, step), OwnKeys(s.view, image), path)
            ==> Threatens(s.dir, s.tasks[step.i], OwnKeys(s.view, image), path)
  {
    var own := OwnKeys(s.view, image);
    if step.ReadCounts? {
      CountsProtectImage(s.dir, s.view, image, path);
      MoreKeys(s.dir, RefKeys(s.view.refs), RefKeys(s.view.refs) + own, path);
    } else if step.ReadRootfs? {
      assert own <= RootKeys(s.view.images);
      MoreKeys(s.dir, s.tasks[step.i].keys + own, s.tasks[step.i].keys + RootKeys(s.view.images), path);
    }
  }

  lemma StepThreatens(s: State, step: Step, image: ImageKey, i: nat, path: string)
    requires ViewInv(s.view) && Safe(s, image) && Enabled(s, step) && i < |s.tasks|
    requires path in BlobPaths(s.dir, s.view, image)
    ensures !Threatens(s.dir, After(s, step).tasks[i], OwnKeys(s.view, image), path)
  {
    UnthreatenedPath(s, image, path);
    if IsTaskStep(step) && step.i == i {
      LoadsExactly(s.dir, s.view, image);
      NextTaskThreatens(s, step, image, path);
    }
  }

  lemma StepKeepsSafe(s: State, step: Step, image: ImageKey)
    requires ViewInv(s.view) && Safe(s, image) && Enabled(s, step) && !Touches(s, step, image)
    ensures Safe(After(s, step), image)
  {
    var s' := After(s, step);
    StepKeepsLoading(s, step, image);
    SamePaths(s.dir, s.view, s'.view, image);
    forall i | 0 <= i < |s'.tasks| ensures !ThreatenedBy(s', image, i) {
      forall p | p in BlobPaths(s.dir, s.view, image)
        ensures !Threatens(s.dir, s'.tasks[i], OwnKeys(s.view, image), p)
      {
        StepThreatens(s, step, image, i, p);
      }
    }
  }

  // ----- Runs

  ghost predicate Allowed(s: State, steps: seq<Step>)
    decreases |steps|
  {
    steps == [] || (Enabled(s, steps[0]) && Allowed(After(s, steps[0]), steps[1..]))
  }

  ghost function Final(s: State, steps: seq<Step>): State
    requires Allowed(s, steps)
    decreases |steps|
  {
    if steps == [] then s else Final(After(s, steps[0]), steps[1..])
  }

  /** No step of the run saves or removes this image. */
  ghost predicate Untouched(s: State, steps: seq<Step>, image: ImageKey)
    requires Allowed(s, steps)
    decreases |steps|
  {
    steps == [] || (!Touches(s, steps[0], image) && Untouched(After(s, steps[0]), steps[1..], image))
  }

  lemma {:induction false} RunInv(s: State, steps: seq<Step>)
    requires Inv(s) && Allowed(s, steps)
    ensures Inv(Final(s, steps))
    decreases |steps|
  {
    if steps != [] {
      StepInv(s, steps[0]);
      RunInv(After(s, steps[0]), steps[1..]);
    }
  }

  /** What a load gives but for sizes and the runtime layer. */
  predicate SameImage(a: Loaded, b: Loaded) {
    && a.Loaded? && b.Loaded?
    && a.result.canonicalLayers == b.result.canonicalLayers
    && a.result.digest == b.result.digest && a.result.oci == b.result.oci
  }

  lemma SameRecordLoads(dir: string, v: View, v': View, image: ImageKey)
    requires SameRecord(v, v', image) && Load(dir, v, image).Loaded? && Load(dir, v', image).Loaded?
    ensures SameImage(Load(dir, v, image), Load(dir, v', image))
  {
  }

  /** A safe image stays so, and loads as the same image, whatever all processes do that does not touch it. */
  lemma {:induction false} SafeStaysSafe(s: State, steps: seq<Step>, image: ImageKey)
    requires ViewInv(s.view) && Safe(s, image) && Allowed(s, steps) && Untouched(s, steps, image)
    ensures Safe(Final(s, steps), image)
    ensures SameImage(Load(s.dir, s.view, image), Load(s.dir, Final(s, steps).view, image))
    decreases |steps|
  {
    if steps != [] {
      var s' := After(s, steps[0]);
      StepView(s, steps[0]);
      StepKeepsSafe(s, steps[0], image);
      StepKeepsLoading(s, steps[0], image);
      SameRecordLoads(s.dir, s.view, s'.view, image);
      SafeStaysSafe(s', steps[1..], image);
    }
  }

  // ----- What is in danger can be lost

  lemma OneStep(s: State, step: Step)
    requires Enabled(s, step)
    ensures Allowed(s, [step]) && Final(s, [step]) == After(s, step)
    ensures forall image :: Untouched(s, [step], image) <==> !Touches(s, step, image)
  {
    var none: seq<Step> := [step][1..];
    assert none == [];
  }

  lemma StepAndRun(s: State, step: Step, rest: seq<Step>, image: ImageKey)
    requires Enabled(s, step) && Allowed(After(s, step), rest)
    requires !Touches(s, step, image) && Untouched(After(s, step), rest, image)
    ensures Allowed(s, [step] + rest) && Final(s, [step] + rest) == Final(After(s, step), rest)
    ensures Untouched(s, [step] + rest, image)
  {
    assert ([step] + rest)[1..] == rest;
  }

  /** The run leaves the image alone and ends without this file. */
  ghost predicate Takes(s: State, steps: seq<Step>, image: ImageKey, path: string) {
    Allowed(s, steps) && Untouched(s, steps, image) && path !in Final(s, steps).view.files
  }

  lemma TakesBehind(s: State, step: Step, rest: seq<Step>, image: ImageKey, path: string)
    requires Enabled(s, step) && !Touches(s, step, image) && Takes(After(s, step), rest, image, path)
    ensures Takes(s, [step] + rest, image, path)
  {
    StepAndRun(s, step, rest, image);
  }

  lemma ListedIsTaken(s: State, image: ImageKey, i: nat, path: string) returns (steps: seq<Step>)
    requires i < |s.tasks| && s.tasks[i].Listed? && path in s.tasks[i].todo && path in s.view.files
    requires Doomed(s.dir, s.tasks[i].keys, path)
    ensures Takes(s, steps, image, path)
  {
    steps := [RemoveFile(i, path)];
    OneStep(s, RemoveFile(i, path));
  }

  lemma RootedIsTaken(s: State, image: ImageKey, i: nat, path: string) returns (steps: seq<Step>)
    requires i < |s.tasks| && s.tasks[i].Rooted? && path in s.view.files
    requires Doomed(s.dir, s.tasks[i].keys, path)
    ensures Takes(s, steps, image, path)
  {
    var rest := ListedIsTaken(After(s, ListBlobs(i)), image, i, path);
    TakesBehind(s, ListBlobs(i), rest, image, path);
    steps := [ListBlobs(i)] + rest;
  }

  lemma LoneIsTaken(s: State, image: ImageKey, i: nat, path: string) returns (steps: seq<Step>)
    requires i < |s.tasks| && s.tasks[i].Counted? && path in s.view.files && s.view.images.Keys == {image}
    requires Doomed(s.dir, s.tasks[i].keys + OwnKeys(s.view, image), path)
    ensures Takes(s, steps, image, path)
  {
    assert RootKeys(s.view.images) == OwnKeys(s.view, image);
    var rest := RootedIsTaken(After(s, ReadRootfs(i)), image, i, path);
    TakesBehind(s, ReadRootfs(i), rest, image, path);
    steps := [ReadRootfs(i)] + rest;
  }

  lemma AfterDelete(s: State, other: ImageKey, image: ImageKey)
    requires ViewInv(s.view) && image in s.view.images && other in s.view.images && other != image
    ensures var v := After(s, Delete(other)).view;
            && ViewInv(v) && image in v.images && OwnKeys(v, image) == OwnKeys(s.view, image)
            && |v.images.Keys| < |s.view.images.Keys|
  {
    StepView(s, Delete(other));
    StepKeepsRecord(s, Delete(other), image);
    SamePaths(s.dir, s.view, After(s, Delete(other)).view, image);
    assert After(s, Delete(other)).view.images.Keys == s.view.images.Keys - {other};
  }

  /** A file that only other images' rootfs paths name goes when these images are deleted before their paths are read. */
  lemma {:induction false} CountedIsTaken(s: State, image: ImageKey, i: nat, path: string) returns (steps: seq<Step>)
    requires ViewInv(s.view) && image in s.view.images
    requires i < |s.tasks| && s.tasks[i].Counted? && path in s.view.files
    requires Doomed(s.dir, s.tasks[i].keys + OwnKeys(s.view, image), path)
    ensures Takes(s, steps, image, path)
    decreases |s.view.images.Keys|
  {
    if other :| other in s.view.images && other != image {
      AfterDelete(s, other, image);
      var rest := CountedIsTaken(After(s, Delete(other)), image, i, path);
      TakesBehind(s, Delete(other), rest, image, path);
      steps := [Delete(other)] + rest;
    } else {
      assert s.view.images.Keys == {image};
      steps := LoneIsTaken(s, image, i, path);
    }
  }

  lemma ThreatenedIsTaken(s: State, image: ImageKey, i: nat, path: string) returns (steps: seq<Step>)
    requires ViewInv(s.view) && image in s.view.images && path in s.view.files
    requires i < |s.tasks| && Threatens(s.dir, s.tasks[i], OwnKeys(s.view, image), path)
    ensures Takes(s, steps, image, path)
  {
    match s.tasks[i] {
      case Counted(_) => steps := CountedIsTaken(s, image, i, path);
      case Rooted(_) => steps := RootedIsTaken(s, image, i, path);
      case Listed(_, _) => steps := ListedIsTaken(s, image, i, path);
    }
  }

  lemma {:induction false} RunKeepsPaths(s: State, steps: seq<Step>, image: ImageKey)
    requires ViewInv(s.view) && Allowed(s, steps) && Untouched(s, steps, image) && image in s.view.images
    ensures Final(s, steps).dir == s.dir
    ensures BlobPaths(s.dir, Final(s, steps).view, image) == BlobPaths(s.dir, s.view, image)
    decreases |steps|
  {
    if steps != [] {
      var s' := After(s, steps[0]);
      StepView(s, steps[0]);
      StepKeepsRecord(s, steps[0], image);
      SamePaths(s.dir, s.view, s'.view, image);
      RunKeepsPaths(s', steps[1..], image);
    }
  }

  /** The run leaves the image alone, and at its end the image does not load. */
  ghost predicate Loses(s: State, steps: seq<Step>, image: ImageKey) {
    Allowed(s, steps) && Untouched(s, steps, image) && Load(s.dir, Final(s, steps).view, image).NotLoaded?
  }

  lemma TakenIsLost(s: State, steps: seq<Step>, image: ImageKey, path: string)
    requires ViewInv(s.view) && image in s.view.images && path in BlobPaths(s.dir, s.view, image)
    requires Takes(s, steps, image, path)
    ensures Loses(s, steps, image)
  {
    RunKeepsPaths(s, steps, image);
    LoadsExactly(s.dir, Final(s, steps).view, image);
  }

  /** An image that a collection endangers can be lost without being touched. */
  lemma ThreatenedIsLost(s: State, image: ImageKey) returns (steps: seq<Step>)
    requires ViewInv(s.view) && Load(s.dir, s.view, image).Loaded? && Threatened(s, image)
    ensures Loses(s, steps, image)
  {
    var i: nat :| 0 <= i < |s.tasks| && ThreatenedBy(s, image, i);
    var path :| path in BlobPaths(s.dir, s.view, image) && Threatens(s.dir, s.tasks[i], OwnKeys(s.view, image), path);
    LoadsExactly(s.dir, s.view, image);
    assert FilePresent(s.view.files, path);
    steps := ThreatenedIsTaken(s, image, i, path);
    TakenIsLost(s, steps, image, path);
  }

  /**
    An image that loads survives everything the processes may do to other images exactly if no collection
    under way has missed its references: one that starts later never endangers it.
   */
  lemma SurvivesSharingExactly(s: State, image: ImageKey)
    requires ViewInv(s.view) && LoadsWell(s.dir, s.view, image)
    ensures (forall steps :: !Loses(s, steps, image)) <==> !Threatened(s, image)
  {
    if Threatened(s, image) {
      var steps := ThreatenedIsLost(s, image);
    } else {
      forall steps ensures !Loses(s, steps, image) {
        if Allowed(s, steps) && Untouched(s, steps, image) { SafeStaysSafe(s, steps, image); }
      }
    }
  }

  // ----- Saving while others collect

  lemma RecordedLayers(dir: string, rows: seq<LayerRow>, image: ImageKey, layers: seq<LayerRef>)
    requires InBlobs(dir, layers) && rows == NewRows(image, layers)
    ensures Supported(rows) && LayersFor(dir, rows) == Some(layers)
  {
    forall i | 0 <= i < |rows| ensures NormalizeFSType(rows[i].fsType).Some? && LayerFor(dir, rows[i]) == layers[i] {
      assert layers[i] in layers;
    }
    assert LayersFor(dir, rows).value == layers;
  }

  ghost function PathsOf(layers: seq<LayerRef>): set<string> { set l | l in layers :: l.path }

  lemma RecordedPaths(dir: string, v: View, image: ImageKey, layers: seq<LayerRef>)
    requires InBlobs(dir, layers) && RowsOf(v.layers, image) == NewRows(image, layers)
    ensures BlobPaths(dir, v, image) == PathsOf(layers)
  {
    var rows := NewRows(image, layers);
    forall r | r in rows ensures BlobPath(dir, r.digest, EROFS) in PathsOf(layers) {
      var k :| 0 <= k < |rows| && rows[k] == r;
      assert layers[k] in layers;
    }
    forall l | l in layers ensures l.path in BlobPaths(dir, v, image) {
      var k :| 0 <= k < |layers| && layers[k] == l;
      assert rows[k] in rows;
    }
  }

  /** What a commit makes of a save: the image loads exactly if all its files are still there. */
  lemma CommitLoadsExactly(s: State, i: nat)
    requires Inv(s) && Enabled(s, Commit(i))
    ensures var task, v := s.tasks[i], After(s, Commit(i)).view;
            && (Load(s.dir, v, task.image).Loaded? <==> FilesPresent(s.view.files, task.layers))
            && RowsOf(v.layers, task.image) == NewRows(task.image, task.layers)
            && BlobPaths(s.dir, v, task.image) == PathsOf(task.layers)
    ensures var task, r := s.tasks[i], Load(s.dir, After(s, Commit(i)).view, s.tasks[i].image);
            r.Loaded? ==> r.result.canonicalLayers == task.layers && r.result.digest == task.row.digest
  {
    var task := s.tasks[i];
    WithRowsInv(s.view, s.view.images[task.image := task.row], task.image, task.layers);
    RecordedLayers(s.dir, NewRows(task.image, task.layers), task.image, task.layers);
    RecordedPaths(s.dir, After(s, Commit(i)).view, task.image, task.layers);
  }

  lemma WellFormedRows(image: ImageKey, layers: seq<LayerRef>)
    requires forall l :: l in layers ==> WellFormed(l.digest)
    ensures forall r :: r in NewRows(image, layers) ==> WellFormed(r.digest)
  {
    forall r | r in NewRows(image, layers) ensures WellFormed(r.digest) {
      var k :| 0 <= k < |layers| && NewRows(image, layers)[k] == r;
      assert layers[k] in layers;
    }
  }

  /** Another collection under way misses one of the layers. */
  ghost predicate EndangeredByOthers(s: State, i: nat, own: set<string>, layers: seq<LayerRef>) {
    exists j :: 0 <= j < |s.tasks| && j != i && ThreatensSome(s.dir, s.tasks[j], own, PathsOf(layers))
  }

  lemma CommitThreatens(s: State, i: nat)
    requires Inv(s) && Enabled(s, Commit(i))
    ensures var task, s' := s.tasks[i], After(s, Commit(i));
            Threatened(s', task.image) <==> EndangeredByOthers(s, i, OwnKeys(s'.view, task.image), task.layers)
  {
    var task, s' := s.tasks[i], After(s, Commit(i));
    var own := OwnKeys(s'.view, task.image);
    CommitLoadsExactly(s, i);
    forall j | 0 <= j < |s.tasks|
      ensures ThreatenedBy(s', task.image, j) <==> j != i && ThreatensSome(s.dir, s.tasks[j], own, PathsOf(task.layers))
    {
      if j == i {
        IdleThreatensNone(s.dir, own, PathsOf(task.layers));
      } else {
        assert s'.tasks[j] == s.tasks[j];
      }
    }
  }

  lemma IdleThreatensNone(dir: string, own: set<string>, paths: set<string>)
    ensures !ThreatensSome(dir, Idle, own, paths)
  {
  }

  /**
    The image just saved is safe exactly if its files are still there and no collection under way misses one of
    them: the check for the files, made before the commit, does not decide it.
   */
  lemma CommitIsSafeExactly(s: State, i: nat)
    requires Inv(s) && Enabled(s, Commit(i)) && forall l :: l in s.tasks[i].layers ==> WellFormed(l.digest)
    ensures var task, s' := s.tasks[i], After(s, Commit(i));
            Safe(s', task.image)
            <==> FilesPresent(s.view.files, task.layers)
                 && !EndangeredByOthers(s, i, OwnKeys(s'.view, task.image), task.layers)
  {
    var task, v := s.tasks[i], After(s, Commit(i)).view;
    CommitLoadsExactly(s, i);
    WellFormedRows(task.image, task.layers);
    assert LoadsWell(s.dir, v, task.image) <==> FilesPresent(s.view.files, task.layers);
    CommitThreatens(s, i);
  }

  /** A save that succeeds while a collection misses one of its layers is lost by what that collection does next. */
  lemma CommitIsLost(s: State, i: nat) returns (steps: seq<Step>)
    requires Inv(s) && Enabled(s, Commit(i)) && FilesPresent(s.view.files, s.tasks[i].layers)
    requires EndangeredByOthers(s, i, OwnKeys(After(s, Commit(i)).view, s.tasks[i].image), s.tasks[i].layers)
    ensures var s' := After(s, Commit(i));
            Load(s.dir, s'.view, s.tasks[i].image).Loaded? && Loses(s', steps, s.tasks[i].image)
  {
    CommitLoadsExactly(s, i);
    CommitThreatens(s, i);
    StepView(s, Commit(i));
    steps := ThreatenedIsLost(After(s, Commit(i)), s.tasks[i].image);
  }

  // ----- A save that succeeds and is lost

  function Empty(dir: string): State { State(dir, View(map[], [], map[], map[]), [Idle, Idle]) }

  const APP: ImageKey := ImageKey("local", "app")

  function AppLayer(dir: string, digest: string): LayerRef { LayerRef(digest, EROFS, 1, BlobPath(dir, digest, EROFS)) }

  /** One process has checked the files of an image; the other has finished looking for references. */
  function Overtaken(dir: string, digest: string): State {
    var path := BlobPath(dir, digest, EROFS);
    State(dir, View(map[], [], map[], map[path := File(1, 1)]),
          [Checked(APP, ImageRow(digest, 1, "", "", None), [AppLayer(dir, digest)]), Listed({}, {path})])
  }

  lemma OvertakenIsReached(dir: string, digest: string) returns (steps: seq<Step>)
    ensures Allowed(Empty(dir), steps) && Final(Empty(dir), steps) == Overtaken(dir, digest)
  {
    var path, row, layers := BlobPath(dir, digest, EROFS), ImageRow(digest, 1, "", "", None), [AppLayer(dir, digest)];
    var v := View(map[], [], map[], map[path := File(1, 1)]);
    var saver := Checked(APP, row, layers);
    var s1, s2 := State(dir, v, [Idle, Idle]), State(dir, v, [saver, Idle]);
    assert v.files.Keys == {path};
    var last := CollectorRuns(dir, v, saver);
    assert After(s1, Check(0, APP, row, layers)) == s2;
    StepAndRun(s1, Check(0, APP, row, layers), last, APP);
    var steps1 := [Check(0, APP, row, layers)] + last;
    assert After(Empty(dir), AddBlob(digest, File(1, 1))) == s1;
    StepAndRun(Empty(dir), AddBlob(digest, File(1, 1)), steps1, APP);
    steps := [AddBlob(digest, File(1, 1))] + steps1;
  }

  lemma CollectorRuns(dir: string, v: View, saver: Task) returns (steps: seq<Step>)
    requires v.images == map[] && v.refs == map[]
    ensures Allowed(State(dir, v, [saver, Idle]), steps) && Untouched(State(dir, v, [saver, Idle]), steps, APP)
    ensures Final(State(dir, v, [saver, Idle]), steps) == State(dir, v, [saver, Listed({}, v.files.Keys)])
  {
    var s2, s3 := State(dir, v, [saver, Idle]), State(dir, v, [saver, Counted({})]);
    CollectorSteps(dir, v, saver);
    OneStep(State(dir, v, [saver, Rooted({})]), ListBlobs(1));
    StepAndRun(s3, ReadRootfs(1), [ListBlobs(1)], APP);
    steps := [ReadRootfs(1)] + [ListBlobs(1)];
    StepAndRun(s2, ReadCounts(1), steps, APP);
    steps := [ReadCounts(1)] + steps;
  }

  /** A collection on a database without rows finds no references. */
  lemma CollectorSteps(dir: string, v: View, saver: Task)
    requires v.images == map[] && v.refs == map[]
    ensures After(State(dir, v, [saver, Idle]), ReadCounts(1)) == State(dir, v, [saver, Counted({})])
    ensures After(State(dir, v, [saver, Counted({})]), ReadRootfs(1)) == State(dir, v, [saver, Rooted({})])
    ensures After(State(dir, v, [saver, Rooted({})]), ListBlobs(1)) == State(dir, v, [saver, Listed({}, v.files.Keys)])
  {
    assert RefKeys(v.refs) == {} && RootKeys(v.images) == {} && {} + RootKeys(v.images) == {};
    SecondTask(saver, Idle, Counted({}));
    SecondTask(saver, Counted({}), Rooted({}));
    SecondTask(saver, Rooted({}), Listed({}, v.files.Keys));
  }

  lemma SecondTask(a: Task, b: Task, c: Task)
    ensures [a, b][1 := c] == [a, c]
  {
  }

  lemma NoRows(dir: string, digest: string)
    ensures Inv(Overtaken(dir, digest))
  {
    assert forall id :: Count([], id) == 0;
    assert forall image :: RowsOf([], image) == [];
  }

  /**
    For every digest and from an empty cache there is a run in which a save commits an image that loads, and
    the other process, which had looked for references before, then removes its file.
   */
  lemma CollectedWhileSaving(dir: string, digest: string) returns (before: seq<Step>, after: seq<Step>)
    requires WellFormed(digest)
    ensures Allowed(Empty(dir), before) && Allowed(Final(Empty(dir), before), [Commit(0)])
    ensures var s := After(Final(Empty(dir), before), Commit(0));
            Load(dir, s.view, APP).Loaded? && Loses(s, after, APP)
  {
    var s := Overtaken(dir, digest);
    before := OvertakenIsReached(dir, digest);
    OneStep(s, Commit(0));
    after := OvertakenIsLost(dir, digest);
  }

  lemma OvertakenIsLost(dir: string, digest: string) returns (after: seq<Step>)
    requires WellFormed(digest)
    ensures var s := After(Overtaken(dir, digest), Commit(0));
            Load(dir, s.view, APP).Loaded? && Loses(s, after, APP)
  {
    var s := Overtaken(dir, digest);
    NoRows(dir, digest);
    OvertakenIsEndangered(dir, digest, OwnKeys(After(s, Commit(0)).view, APP));
    after := CommitIsLost(s, 0);
  }

  lemma OvertakenIsEndangered(dir: string, digest: string, own: set<string>)
    requires WellFormed(digest)
    ensures EndangeredByOthers(Overtaken(dir, digest), 0, own, [AppLayer(dir, digest)])
  {
    UnknownIsDoomed(dir, digest);
    ListedThreatens(Overtaken(dir, digest), own, [AppLayer(dir, digest)], BlobPath(dir, digest, EROFS));
  }

  lemma ListedThreatens(s: State, own: set<string>, layers: seq<LayerRef>, path: string)
    requires |layers| == 1 && layers[0].path == path
    requires |s.tasks| == 2 && s.tasks[1] == Listed({}, {path}) && Doomed(s.dir, {}, path)
    ensures EndangeredByOthers(s, 0, own, layers)
  {
    assert layers[0] in layers;
    assert Threatens(s.dir, s.tasks[1], own, path);
  }

  lemma UnknownIsDoomed(dir: string, digest: string)
    requires WellFormed(digest)
    ensures Doomed(dir, {}, BlobPath(dir, digest, EROFS))
  {
    RoundTripExactly(digest);
    DoomedBlob(dir, {}, digest);
  }
}
