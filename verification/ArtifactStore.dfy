/**
 * The content-addressed artifact store: a file is written under a temporary name, flushed, renamed to its digest,
 * and only then, when the directory is flushed too, entered into the table. Writers exclude each other; any of them
 * may fail or die at any step, and the machine may lose its power at any time.
 */
module ArtifactStore {
  import opened Wrappers
  import opened Keys

  /** A digest in lower-case hexadecimal digits. */
  type Digest = s: string | |s| == 64 witness seq(64, _ => '0')

  type Hash = Bytes -> Digest

  datatype Suffix = Text | Bitcode

  function SuffixText(x: Suffix): string {
    match x
    case Text => ".ll"
    case Bitcode => ".bc"
  }

  datatype Artifact = Artifact(id: string, digest: Digest, storedPath: string, media: string)

  /** A file, and whether its content was flushed. */
  datatype File = File(content: Bytes, flushed: bool)

  type Directory = map<string, File>

  /** The directory as processes see it, as it was when it was last flushed, and the committed rows of the table. */
  datatype Disk = Disk(files: Directory, durable: Directory, artifacts: seq<Artifact>)

  const EMPTY := Disk(map[], map[], [])

  function Prefix(digest: Digest): string {
    digest[..SHORT_LENGTH]
  }

  function ArtifactId(digest: Digest): string {
    "artifact:" + Prefix(digest)
  }

  function Destination(digest: Digest, x: Suffix): string {
    "artifacts/llvm/" + digest + SuffixText(x)
  }

  function Temporary(digest: Digest, x: Suffix, nonce: string): string {
    Destination(digest, x) + ".tmp-" + nonce
  }

  function RowFor(digest: Digest, x: Suffix): Artifact {
    Artifact(ArtifactId(digest), digest, Destination(digest, x),
             if x.Bitcode? then "application/llvm-bitcode" else "text/llvm")
  }

  /** The first row with the digest. */
  function Find(rows: seq<Artifact>, digest: Digest): (r: Option<Artifact>)
    ensures r.Some? ==> r.value in rows && r.value.digest == digest
    ensures r.None? ==> forall row :: row in rows ==> row.digest != digest
  {
    if rows == [] then None else if rows[0].digest == digest then Some(rows[0]) else Find(rows[1..], digest)
  }

  predicate IdTaken(rows: seq<Artifact>, id: string) {
    exists i :: 0 <= i < |rows| && rows[i].id == id
  }

  /** The steps of storing a new file, in order. */
  datatype Step = Opening | Writing | Flushing | Comparing | Publishing | Syncing | Committing

  /** What goes wrong: nothing, a reported error at a step, or death at a step, after `written` bytes were written. */
  datatype Fault = NoFault | Broken(step: Step, written: nat) | Crash(step: Step, written: nat)

  datatype Error = MissingFile | HashMismatch | PrefixCollision | DifferentContent | InputOutput

  datatype Outcome = Created(row: Artifact) | Deduplicated(row: Artifact) | Rejected(error: Error) | Died

  predicate At(fault: Fault, step: Step) {
    !fault.NoFault? && fault.step == step
  }

  /** Death leaves things as they are; an error is reported. */
  function Interrupted(fault: Fault): Outcome {
    if fault.Crash? then Died else Rejected(InputOutput)
  }

  /** What of `content` was written by then. */
  function Written(content: Bytes, fault: Fault): Bytes {
    if fault.NoFault? || fault.written >= |content| then content else content[..fault.written]
  }

  // ---- Specification -----------------------------------------------------------------------------------------

  /** The directory after writing and flushing the temporary file, and the reason for stopping short, if there is one. */
  function Staged(files: Directory, content: Bytes, temporary: string, fault: Fault): (Directory, Option<Outcome>) {
    if At(fault, Opening) then (files, Some(Interrupted(fault)))
    else if At(fault, Writing) || (At(fault, Flushing) && fault.Crash?) then
      (files[temporary := File(Written(content, fault), false)], Some(Interrupted(fault)))
    else if At(fault, Flushing) then (files - {temporary}, Some(Rejected(InputOutput)))
    else (files[temporary := File(content, true)], None)
  }

  /**
   * The directory after giving the staged file its name, and the reason for stopping short. A file at the destination
   * that cannot be read counts as different; if it cannot be found out whether there is one, the staged file is left.
   */
  function Renamed(files: Directory, content: Bytes, destination: string, temporary: string, fault: Fault)
    : (Directory, Option<Outcome>)
  {
    var removed := files - {temporary};
    if (At(fault, Comparing) || At(fault, Publishing)) && fault.Crash? then (files, Some(Died))
    else if destination in files then
      if At(fault, Comparing) || files[destination].content != content then (removed, Some(Rejected(DifferentContent)))
      else if At(fault, Publishing) then (files, Some(Rejected(InputOutput)))
      else (removed, None)
    else if At(fault, Comparing) then (files, Some(Rejected(InputOutput)))
    else if At(fault, Publishing) then (removed, Some(Rejected(InputOutput)))
    else (removed[destination := File(content, true)], None)
  }

  /** The disk after storing `content`, and the reason for stopping short of the table. */
  function Publish(d: Disk, content: Bytes, destination: string, temporary: string, fault: Fault)
    : (Disk, Option<Outcome>)
  {
    var (staged, stop) := Staged(d.files, content, temporary, fault);
    if stop.Some? then (d.(files := staged), stop)
    else
      var (files, stop) := Renamed(staged, content, destination, temporary, fault);
      if stop.Some? then (d.(files := files), stop)
      else if At(fault, Syncing) then (d.(files := files), Some(Interrupted(fault)))
      else (d.(files := files, durable := files), if At(fault, Committing) then Some(Interrupted(fault)) else None)
  }

  /** One call: deduplicated, refused, interrupted, or stored and entered. */
  function Ingested(hash: Hash, d: Disk, content: Bytes, x: Suffix, nonce: string, fault: Fault): (Disk, Outcome) {
    var digest := hash(content);
    match Find(d.artifacts, digest)
    case Some(row) =>
      if row.storedPath !in d.files then (d, Rejected(MissingFile))
      else if hash(d.files[row.storedPath].content) != digest then (d, Rejected(HashMismatch))
      else (d, Deduplicated(row))
    case None =>
      if IdTaken(d.artifacts, ArtifactId(digest)) then (d, Rejected(PrefixCollision))
      else
        var (after, stop) := Publish(d, content, Destination(digest, x), Temporary(digest, x, nonce), fault);
        match stop
        case Some(outcome) => (after, outcome)
        case None => (after.(artifacts := d.artifacts + [RowFor(digest, x)]), Created(RowFor(digest, x)))
  }

  // ---- Loss of power -----------------------------------------------------------------------------------------

  /** The content may be found under the path: it is the one that was flushed, if it was flushed. */
  predicate MayHold(files: Directory, path: string, content: Bytes) {
    path in files && (files[path].flushed ==> files[path].content == content)
  }

  /** An entry is found as it was last, or as it was when the directory was flushed. */
  predicate Survives(d: Disk, found: Directory, path: string) {
    if path in found then
      MayHold(d.files, path, found[path].content) || MayHold(d.durable, path, found[path].content)
    else path !in d.files || path !in d.durable
  }

  /**
   * When the power is lost, each entry of the directory may or may not have reached the disk, content that was not
   * flushed can be anything, and so can be what is found under other names. Committed rows stay: every transaction
   * is flushed.
   */
  ghost predicate PowerLost(d: Disk, d': Disk) {
    && d'.artifacts == d.artifacts && d'.durable == d'.files
    && (forall path :: path in d'.files ==> d'.files[path].flushed)
    && (forall digest: Digest, x :: Survives(d, d'.files, Destination(digest, x)))
  }

  // ---- What every call keeps ---------------------------------------------------------------------------------

  /** A file under a digest's name is flushed and has that digest, whether or not it has a row. */
  ghost predicate FilesOk(hash: Hash, files: Directory) {
    forall digest: Digest, x :: Destination(digest, x) in files ==>
      files[Destination(digest, x)].flushed && hash(files[Destination(digest, x)].content) == digest
  }

  /** What was published when the directory was flushed is still there. */
  ghost predicate Ahead(files: Directory, durable: Directory) {
    forall digest: Digest, x :: Destination(digest, x) in durable ==>
      Destination(digest, x) in files && files[Destination(digest, x)] == durable[Destination(digest, x)]
  }

  /** A committed row is named after its digest and has its file, which is on the disk for good. */
  predicate Backed(hash: Hash, d: Disk, row: Artifact) {
    && row.id == ArtifactId(row.digest)
    && (row == RowFor(row.digest, Text) || row == RowFor(row.digest, Bitcode))
    && row.storedPath in d.files && hash(d.files[row.storedPath].content) == row.digest
    && row.storedPath in d.durable && d.durable[row.storedPath] == d.files[row.storedPath]
  }

  ghost predicate StoreOk(hash: Hash, d: Disk) {
    && FilesOk(hash, d.files) && Ahead(d.files, d.durable)
    && (forall i :: 0 <= i < |d.artifacts| ==> Backed(hash, d, d.artifacts[i]))
    && (forall i, j :: 0 <= i < j < |d.artifacts| ==> d.artifacts[i].id != d.artifacts[j].id)
  }

  /** A row has the very same file on both disks. */
  predicate SameFile(d: Disk, d': Disk, row: Artifact) {
    row.storedPath in d.files && row.storedPath in d'.files && d'.files[row.storedPath] == d.files[row.storedPath]
  }

  /** Names under which files are published are told apart, and never are temporary names. */
  lemma DestinationsDiffer(digest: Digest, x: Suffix, digest': Digest, x': Suffix, nonce: string)
    ensures Destination(digest, x) == Destination(digest', x') <==> digest == digest' && x == x'
    ensures Destination(digest, x) != Temporary(digest', x', nonce)
  {
    var a, b := Destination(digest, x), Destination(digest', x');
    assert a[15..79] == digest && b[15..79] == digest';
    assert a[79..] == SuffixText(x) && b[79..] == SuffixText(x');
    assert SuffixText(Text)[1] != SuffixText(Bitcode)[1];
    assert |a| == |b| < |Temporary(digest', x', nonce)|;
  }

  /** Publishing touches two names: the temporary one, and the destination, which only ever goes from absent to full. */
  lemma PublishTouches(d: Disk, content: Bytes, destination: string, temporary: string, fault: Fault, path: string)
    requires destination != temporary && path != temporary
    ensures var after := Publish(d, content, destination, temporary, fault).0;
            && (path in d.files ==> path in after.files && after.files[path] == d.files[path])
            && (path in after.files && path !in d.files ==>
                  path == destination && after.files[path] == File(content, true))
  {
  }

  /** Published files stay, and only the new content is published, flushed and under its own digest. */
  ghost predicate Grows(files: Directory, files': Directory, digest: Digest, content: Bytes) {
    forall digest': Digest, x' ::
      var path := Destination(digest', x');
      && (path in files ==> path in files' && files'[path] == files[path])
      && (path in files' && path !in files ==> digest' == digest && files'[path] == File(content, true))
  }

  lemma PublishGrows(d: Disk, digest: Digest, content: Bytes, x: Suffix, nonce: string, fault: Fault)
    ensures var after := Publish(d, content, Destination(digest, x), Temporary(digest, x, nonce), fault).0;
            && Grows(d.files, after.files, digest, content)
            && (after.durable == d.durable || after.durable == after.files) && after.artifacts == d.artifacts
  {
    hide Destination, Temporary;
    forall digest': Digest, x'
      ensures var path, after := Destination(digest', x'),
                                 Publish(d, content, Destination(digest, x), Temporary(digest, x, nonce), fault).0.files;
              && (path in d.files ==> path in after && after[path] == d.files[path])
              && (path in after && path !in d.files ==> digest' == digest && after[path] == File(content, true))
    {
      DestinationsDiffer(digest', x', digest, x, nonce);
      DestinationsDiffer(digest, x, digest, x, nonce);
      PublishTouches(d, content, Destination(digest, x), Temporary(digest, x, nonce), fault, Destination(digest', x'));
    }
  }

  lemma GrowsKeeps(hash: Hash, d: Disk, d': Disk, content: Bytes)
    requires StoreOk(hash, d) && Grows(d.files, d'.files, hash(content), content)
    requires (d'.durable == d.durable || d'.durable == d'.files) && d'.artifacts == d.artifacts
    ensures StoreOk(hash, d')
    ensures forall row :: row in d.artifacts ==> SameFile(d, d', row)
  {
    hide Destination, ArtifactId;
    forall row | row in d.artifacts ensures Backed(hash, d', row) && SameFile(d, d', row) {
      var i :| 0 <= i < |d.artifacts| && d.artifacts[i] == row;
      assert Backed(hash, d, row);
    }
  }

  lemma EnterKeeps(hash: Hash, d: Disk, content: Bytes, x: Suffix)
    requires StoreOk(hash, d) && !IdTaken(d.artifacts, ArtifactId(hash(content)))
    requires d.durable == d.files
    requires Destination(hash(content), x) in d.files && d.files[Destination(hash(content), x)].content == content
    ensures StoreOk(hash, d.(artifacts := d.artifacts + [RowFor(hash(content), x)]))
  {
    hide Destination, ArtifactId, FilesOk, Ahead;
    var d' := d.(artifacts := d.artifacts + [RowFor(hash(content), x)]);
    forall i | 0 <= i < |d'.artifacts| ensures Backed(hash, d', d'.artifacts[i]) {
      if i < |d.artifacts| {
        assert Backed(hash, d, d.artifacts[i]);
      }
    }
  }

  /** No call, however it ends, breaks the store or touches a committed row or its file. */
  lemma IngestKeeps(hash: Hash, d: Disk, content: Bytes, x: Suffix, nonce: string, fault: Fault)
    requires StoreOk(hash, d)
    ensures var d' := Ingested(hash, d, content, x, nonce, fault).0;
            && StoreOk(hash, d')
            && d.artifacts <= d'.artifacts <= d.artifacts + [RowFor(hash(content), x)]
            && forall row :: row in d.artifacts ==> SameFile(d, d', row)
  {
    hide Publish, Destination, Temporary, StoreOk, Grows, IdTaken, ArtifactId, RowFor;
    var digest := hash(content);
    PublishGrows(d, digest, content, x, nonce, fault);
    var after := Publish(d, content, Destination(digest, x), Temporary(digest, x, nonce), fault).0;
    GrowsKeeps(hash, d, after, content);
    RowsHaveFiles(hash, d);
    PublishComplete(d, content, Destination(digest, x), Temporary(digest, x, nonce), fault);
    DestinationsDiffer(digest, x, digest, x, nonce);
    if Ingested(hash, d, content, x, nonce, fault).0.artifacts != d.artifacts {
      EnterKeeps(hash, after, content, x);
    }
  }

  lemma RowsHaveFiles(hash: Hash, d: Disk)
    requires StoreOk(hash, d)
    ensures forall row :: row in d.artifacts ==> row.storedPath in d.files
  {
    hide Destination, ArtifactId, FilesOk, Ahead;
  }

  /** Publishing that is not stopped leaves the whole content under the destination, for good, and no temporary file. */
  lemma PublishComplete(d: Disk, content: Bytes, destination: string, temporary: string, fault: Fault)
    ensures var (after, stop) := Publish(d, content, destination, temporary, fault);
            destination != temporary && stop == None ==>
              && destination in after.files && after.files[destination].content == content
              && temporary !in after.files && after.durable == after.files
  {
  }

  /** No loss of power breaks the store either: a committed row keeps its file, to the byte. */
  lemma PowerLossKeeps(hash: Hash, d: Disk, d': Disk)
    requires StoreOk(hash, d) && PowerLost(d, d')
    ensures StoreOk(hash, d') && d'.artifacts == d.artifacts
    ensures forall row :: row in d.artifacts ==> SameFile(d, d', row)
  {
    hide Destination, ArtifactId, StoreOk, PowerLost, Survives;
    LossFiles(hash, d, d');
    forall row | row in d.artifacts ensures Backed(hash, d', row) && SameFile(d, d', row) {
      LossRow(hash, d, d', row);
    }
    LossOk(hash, d, d');
  }

  lemma LossFiles(hash: Hash, d: Disk, d': Disk)
    requires StoreOk(hash, d) && PowerLost(d, d')
    ensures FilesOk(hash, d'.files) && Ahead(d'.files, d'.durable) && d'.artifacts == d.artifacts && d'.durable == d'.files
  {
    hide Destination, Backed;
    forall digest: Digest, x | Destination(digest, x) in d'.files
      ensures hash(d'.files[Destination(digest, x)].content) == digest
    {
      assert Survives(d, d'.files, Destination(digest, x));
    }
  }

  lemma LossRow(hash: Hash, d: Disk, d': Disk, row: Artifact)
    requires StoreOk(hash, d) && PowerLost(d, d') && row in d.artifacts
    ensures Backed(hash, d', row) && SameFile(d, d', row)
  {
    hide Destination, ArtifactId, Ahead;
    var i :| 0 <= i < |d.artifacts| && d.artifacts[i] == row;
    assert Backed(hash, d, d.artifacts[i]);
    var x := if row == RowFor(row.digest, Text) then Text else Bitcode;
    assert row.storedPath == Destination(row.digest, x);
    assert Survives(d, d'.files, Destination(row.digest, x));
  }

  lemma LossOk(hash: Hash, d: Disk, d': Disk)
    requires StoreOk(hash, d) && d'.artifacts == d.artifacts && FilesOk(hash, d'.files) && Ahead(d'.files, d'.durable)
    requires forall row :: row in d.artifacts ==> Backed(hash, d', row)
    ensures StoreOk(hash, d')
  {
    hide FilesOk, Ahead, Backed;
  }

  /**
   * The second flush is needed: a file that was renamed when its writer died may be gone after a loss of power, while
   * one whose directory was flushed stays.
   */
  lemma PublishedMayVanish(hash: Hash, content: Bytes, x: Suffix, nonce: string, written: nat)
    ensures var path := Destination(hash(content), x);
            var d, e := Ingested(hash, EMPTY, content, x, nonce, Crash(Syncing, written)).0,
                        Ingested(hash, EMPTY, content, x, nonce, Crash(Committing, written)).0;
            && path in d.files && PowerLost(d, EMPTY)
            && forall e' :: PowerLost(e, e') ==> path in e'.files && e'.files[path].content == content
  {
    hide Destination, Temporary, ArtifactId, PowerLost;
    var path, temporary := Destination(hash(content), x), Temporary(hash(content), x, nonce);
    var d, e := Ingested(hash, EMPTY, content, x, nonce, Crash(Syncing, written)).0,
                Ingested(hash, EMPTY, content, x, nonce, Crash(Committing, written)).0;
    DestinationsDiffer(hash(content), x, hash(content), x, nonce);
    EverythingLost(d);
    forall e' | PowerLost(e, e') ensures path in e'.files && e'.files[path].content == content {
      LossAt(e, e', hash(content), x);
    }
  }

  lemma EverythingLost(d: Disk)
    requires d.durable == map[] && d.artifacts == []
    ensures PowerLost(d, EMPTY)
  {
    hide Destination;
  }

  lemma LossAt(d: Disk, d': Disk, digest: Digest, x: Suffix)
    requires PowerLost(d, d')
    ensures Survives(d, d'.files, Destination(digest, x))
  {
    hide Destination, Survives;
  }

  // ---- Outcomes ----------------------------------------------------------------------------------------------

  /** The destination is free, or holds this very content. */
  predicate Room(d: Disk, content: Bytes, digest: Digest, x: Suffix) {
    Destination(digest, x) in d.files ==> d.files[Destination(digest, x)].content == content
  }

  /** The columns of a new row. */
  predicate RowText(row: Artifact, digest: Digest, x: Suffix) {
    && row.id == "artifact:" + digest[..16] && row.digest == digest
    && match x
       case Text => row.storedPath == "artifacts/llvm/" + digest + ".ll" && row.media == "text/llvm"
       case Bitcode => row.storedPath == "artifacts/llvm/" + digest + ".bc" && row.media == "application/llvm-bitcode"
  }

  lemma RowHasText(digest: Digest, x: Suffix)
    ensures RowText(RowFor(digest, x), digest, x)
  {
  }

  /** In a sound store the outcome is decided by the rows, the destination and the fault; nothing is ever missing. */
  lemma OutcomeExact(hash: Hash, d: Disk, content: Bytes, x: Suffix, nonce: string, fault: Fault)
    requires StoreOk(hash, d)
    ensures var digest, (d', r) := hash(content), Ingested(hash, d, content, x, nonce, fault);
            && (r.Deduplicated? <==> exists row :: row in d.artifacts && row.digest == digest)
            && (r.Deduplicated? ==> r.row in d.artifacts && r.row.digest == digest && d' == d)
            && (r == Rejected(PrefixCollision) <==>
                  exists row :: row in d.artifacts && row.id == ArtifactId(digest) && row.digest != digest)
            && (r == Rejected(PrefixCollision) ==> d' == d)
            && (r.Created? <==>
                  fault.NoFault? && Room(d, content, digest, x) &&
                  forall row :: row in d.artifacts ==> row.id != ArtifactId(digest))
            && (r.Created? ==>
                  r.row == RowFor(digest, x) && d'.artifacts == d.artifacts + [r.row] &&
                  r.row.storedPath in d'.files && d'.files[r.row.storedPath].content == content &&
                  d'.durable == d'.files)
            && (r.Created? ==> RowText(r.row, digest, x))
            && (!r.Created? ==> d'.artifacts == d.artifacts)
            && r != Rejected(MissingFile) && r != Rejected(HashMismatch)
  {
    hide Destination, Temporary, Prefix, ArtifactId, Publish, StoreOk, RowText;
    var digest := hash(content);
    if Find(d.artifacts, digest).Some? {
      FoundRow(hash, d, Find(d.artifacts, digest).value);
    } else {
      assert IdTaken(d.artifacts, ArtifactId(digest)) <==>
             exists row :: row in d.artifacts && row.id == ArtifactId(digest);
      DestinationsDiffer(digest, x, digest, x, nonce);
      RowHasText(digest, x);
      PublishStops(d, content, Destination(digest, x), Temporary(digest, x, nonce), fault);
      PublishComplete(d, content, Destination(digest, x), Temporary(digest, x, nonce), fault);
    }
  }

  /**
   * In any store, sound or not, content whose digest has a row is never stored again: the row is answered if its file is
   * there with that digest, and the missing or damaged file is reported otherwise; the disk stays as it is.
   */
  lemma DamageReported(hash: Hash, d: Disk, content: Bytes, x: Suffix, nonce: string, fault: Fault, i: nat)
    requires i < |d.artifacts| && d.artifacts[i].digest == hash(content)
    requires forall j :: 0 <= j < i ==> d.artifacts[j].digest != hash(content)
    ensures var (d', r) := Ingested(hash, d, content, x, nonce, fault);
            var path := d.artifacts[i].storedPath;
            && d' == d
            && (r == Rejected(MissingFile) <==> path !in d.files)
            && (r == Rejected(HashMismatch) <==> path in d.files && hash(d.files[path].content) != hash(content))
            && (r == Deduplicated(d.artifacts[i]) <==> path in d.files && hash(d.files[path].content) == hash(content))
  {
    hide Publish, Destination, Temporary, ArtifactId;
    FirstFound(d.artifacts, hash(content), i);
  }

  lemma {:induction false} FirstFound(rows: seq<Artifact>, digest: Digest, i: nat)
    requires i < |rows| && rows[i].digest == digest && forall j :: 0 <= j < i ==> rows[j].digest != digest
    ensures Find(rows, digest) == Some(rows[i])
  {
    if i > 0 {
      FirstFound(rows[1..], digest, i - 1);
    }
  }

  /** A row's file is there and has its digest, and no other row has its identifier. */
  lemma FoundRow(hash: Hash, d: Disk, row: Artifact)
    requires StoreOk(hash, d) && row in d.artifacts
    ensures row.storedPath in d.files && hash(d.files[row.storedPath].content) == row.digest
    ensures row.id == ArtifactId(row.digest)
    ensures forall other :: other in d.artifacts && other.id == row.id ==> other == row
  {
    hide FilesOk, Ahead, ArtifactId, Destination;
    var i :| 0 <= i < |d.artifacts| && d.artifacts[i] == row;
    assert Backed(hash, d, d.artifacts[i]);
  }

  lemma PublishStops(d: Disk, content: Bytes, destination: string, temporary: string, fault: Fault)
    requires destination != temporary
    ensures var (after, stop) := Publish(d, content, destination, temporary, fault);
            && after.artifacts == d.artifacts
            && (stop == None <==> fault.NoFault? && (destination in d.files ==> d.files[destination].content == content))
            && (stop.Some? ==> stop.value == Died || stop.value == Rejected(InputOutput) ||
                               stop.value == Rejected(DifferentContent))
  {
  }

  /** Nothing of the call's digest or prefix is in the table. */
  predicate Fresh(d: Disk, digest: Digest) {
    forall row :: row in d.artifacts ==> row.digest != digest && row.id != ArtifactId(digest)
  }

  /** A fault at the step that the program only takes when the file is written. */
  predicate Leaves(d: Disk, content: Bytes, destination: string, fault: Fault) {
    || (fault.Crash? && fault.step in {Writing, Flushing, Comparing, Publishing})
    || (fault.Broken? && fault.step == Writing)
    || (fault.Broken? && fault.step == Comparing && destination !in d.files)
    || (fault.Broken? && fault.step == Publishing && destination in d.files && d.files[destination].content == content)
  }

  /**
   * A new temporary file is left behind exactly when the writer died before the file had its name, or when an error is
   * reported that leaves it; it then holds the content up to some byte.
   */
  lemma LeftBehind(hash: Hash, d: Disk, content: Bytes, x: Suffix, nonce: string, fault: Fault)
    requires Temporary(hash(content), x, nonce) !in d.files
    ensures var digest, after := hash(content), Ingested(hash, d, content, x, nonce, fault).0;
            var temporary := Temporary(digest, x, nonce);
            && (temporary in after.files <==> Fresh(d, digest) && Leaves(d, content, Destination(digest, x), fault))
            && (temporary in after.files ==> after.files[temporary].content <= content)
  {
    hide Destination, Temporary, ArtifactId, Prefix, Publish;
    var digest := hash(content);
    DestinationsDiffer(digest, x, digest, x, nonce);
    FreshRows(d, digest);
    PublishLeaves(d, content, Destination(digest, x), Temporary(digest, x, nonce), fault);
  }

  lemma FreshRows(d: Disk, digest: Digest)
    ensures Fresh(d, digest) <==> Find(d.artifacts, digest).None? && !IdTaken(d.artifacts, ArtifactId(digest))
  {
    hide ArtifactId;
    assert IdTaken(d.artifacts, ArtifactId(digest)) <==> exists row :: row in d.artifacts && row.id == ArtifactId(digest);
  }

  lemma PublishLeaves(d: Disk, content: Bytes, destination: string, temporary: string, fault: Fault)
    requires destination != temporary && temporary !in d.files
    ensures var after := Publish(d, content, destination, temporary, fault).0;
            && (temporary in after.files <==> Leaves(d, content, destination, fault))
            && (temporary in after.files ==> after.files[temporary].content <= content)
  {
  }

  /**
   * However the first attempt ended, and even if the power was lost then, the same content can be ingested again,
   * unless its digest's prefix or its destination was already taken by other content; and then it has exactly one row.
   */
  lemma RetrySucceeds(hash: Hash, d: Disk, content: Bytes, x: Suffix, n: string, fault: Fault, middle: Disk, y: Suffix,
                      n': string)
    requires StoreOk(hash, d)
    requires var died := Ingested(hash, d, content, x, n, fault).0; middle == died || PowerLost(died, middle)
    ensures var digest := hash(content);
            var (d', r) := Ingested(hash, middle, content, y, n', NoFault);
            && (r.Created? || r.Deduplicated? <==>
                  || (exists row :: row in middle.artifacts && row.digest == digest)
                  || ((forall row :: row in d.artifacts ==> row.id != ArtifactId(digest)) &&
                      Room(middle, content, digest, y)))
            && (r.Created? || r.Deduplicated? ==> OneRow(d'.artifacts, digest))
            && (Room(d, content, digest, y) ==> Room(middle, content, digest, y))
  {
    hide StoreOk, Ingested, Room, ArtifactId, Destination, OneRow, PowerLost;
    var digest := hash(content);
    var died := Ingested(hash, d, content, x, n, fault).0;
    var (d', r) := Ingested(hash, middle, content, y, n', NoFault);
    IngestKeeps(hash, d, content, x, n, fault);
    if middle != died {
      PowerLossKeeps(hash, died, middle);
      if Room(died, content, digest, y) {
        RoomSurvives(hash, died, middle, content, y);
      }
    }
    IngestKeeps(hash, middle, content, y, n', NoFault);
    OutcomeExact(hash, d, content, x, n, fault);
    OutcomeExact(hash, middle, content, y, n', NoFault);
    RoomKept(hash, d, content, x, n, fault, y);
    if r.Created? || r.Deduplicated? {
      assert r.row in d'.artifacts && r.row.digest == digest;
      NoSecondRow(hash, d', digest);
    }
  }

  /** Exactly one row has the digest. */
  ghost predicate OneRow(rows: seq<Artifact>, digest: Digest) {
    exists i :: 0 <= i < |rows| && rows[i].digest == digest &&
      forall j :: 0 <= j < |rows| && rows[j].digest == digest ==> j == i
  }

  /** Whether there is room for the content does not depend on how earlier attempts to store it ended. */
  lemma RoomKept(hash: Hash, d: Disk, content: Bytes, x: Suffix, nonce: string, fault: Fault, y: Suffix)
    ensures Room(Ingested(hash, d, content, x, nonce, fault).0, content, hash(content), y) <==>
            Room(d, content, hash(content), y)
  {
    hide Publish, Destination, Temporary;
    PublishGrows(d, hash(content), content, x, nonce, fault);
  }

  lemma RoomSurvives(hash: Hash, d: Disk, d': Disk, content: Bytes, y: Suffix)
    requires StoreOk(hash, d) && PowerLost(d, d') && Room(d, content, hash(content), y)
    ensures Room(d', content, hash(content), y)
  {
    hide Destination, Backed;
    LossAt(d, d', hash(content), y);
  }

  lemma NoSecondRow(hash: Hash, d: Disk, digest: Digest)
    requires StoreOk(hash, d) && exists row :: row in d.artifacts && row.digest == digest
    ensures OneRow(d.artifacts, digest)
  {
    hide FilesOk, Ahead, ArtifactId;
    var row :| row in d.artifacts && row.digest == digest;
    var i :| 0 <= i < |d.artifacts| && d.artifacts[i] == row;
    assert Backed(hash, d, d.artifacts[i]);
    forall j | 0 <= j < |d.artifacts| && d.artifacts[j].digest == digest ensures j == i {
      assert Backed(hash, d, d.artifacts[j]);
    }
  }

  // ---- Whole histories ---------------------------------------------------------------------------------------

  datatype Event = Attempt(content: Bytes, suffix: Suffix, nonce: string, fault: Fault) | PowerLoss

  ghost predicate Happens(hash: Hash, d: Disk, e: Event, d': Disk) {
    match e
    case Attempt(content, x, nonce, fault) => d' == Ingested(hash, d, content, x, nonce, fault).0
    case PowerLoss => PowerLost(d, d')
  }

  /** The disks that follow each other from an empty one. */
  ghost predicate History(hash: Hash, disks: seq<Disk>, events: seq<Event>) {
    && |disks| == |events| + 1 && disks[0] == EMPTY
    && forall i :: 0 <= i < |events| ==> Happens(hash, disks[i], events[i], disks[i + 1])
  }

  lemma EmptyOk(hash: Hash)
    ensures StoreOk(hash, EMPTY)
  {
    hide Destination;
  }

  lemma HappensKeeps(hash: Hash, d: Disk, e: Event, d': Disk)
    requires StoreOk(hash, d) && Happens(hash, d, e, d')
    ensures StoreOk(hash, d') && d.artifacts <= d'.artifacts
    ensures forall row :: row in d.artifacts ==> SameFile(d, d', row)
  {
    hide StoreOk, PowerLost, Ingested, SameFile;
    match e
    case Attempt(content, x, nonce, fault) => IngestKeeps(hash, d, content, x, nonce, fault);
    case PowerLoss => PowerLossKeeps(hash, d, d');
  }

  /** Whatever failed, died or was lost on the way, every committed artifact has its file, and no two share a prefix. */
  lemma {:induction false} HistorySound(hash: Hash, disks: seq<Disk>, events: seq<Event>, i: nat)
    requires History(hash, disks, events) && i < |disks|
    ensures StoreOk(hash, disks[i])
  {
    hide StoreOk, Happens;
    if i == 0 {
      EmptyOk(hash);
    } else {
      HistorySound(hash, disks, events, i - 1);
      HappensKeeps(hash, disks[i - 1], events[i - 1], disks[i]);
    }
  }

  /** Once committed, an artifact keeps its row and every byte of its file. */
  lemma {:induction false} CommittedForever(hash: Hash, disks: seq<Disk>, events: seq<Event>, i: nat, j: nat, row: Artifact)
    requires History(hash, disks, events) && i <= j < |disks| && row in disks[i].artifacts
    ensures row in disks[j].artifacts && SameFile(disks[i], disks[j], row)
    decreases j - i
  {
    hide StoreOk, Happens, History;
    if i == j {
      HistorySound(hash, disks, events, i);
      RowsHaveFiles(hash, disks[i]);
    } else {
      CommittedForever(hash, disks, events, i, j - 1, row);
      HistorySound(hash, disks, events, j - 1);
      HistoryStep(hash, disks, events, j - 1);
      HappensKeeps(hash, disks[j - 1], events[j - 1], disks[j]);
    }
  }

  lemma HistoryStep(hash: Hash, disks: seq<Disk>, events: seq<Event>, i: nat)
    requires History(hash, disks, events) && i + 1 < |disks|
    ensures |disks| == |events| + 1 && Happens(hash, disks[i], events[i], disks[i + 1])
  {
    hide Happens;
  }

  /** Among all artifacts of a store, a handle names at most one thing. */
  lemma HandleNamesOne(hash: Hash, disks: seq<Disk>, events: seq<Event>, n: nat, i: nat, a: Local, j: nat, b: Local)
    requires History(hash, disks, events) && n < |disks|
    requires i < |disks[n].artifacts| && j < |disks[n].artifacts|
    ensures var rows := disks[n].artifacts;
            EntityId(Prefix(rows[i].digest), Render(a)) == EntityId(Prefix(rows[j].digest), Render(b)) <==>
            i == j && a == b
  {
    hide EntityId, Render, History, FilesOk, Ahead, Destination;
    HistorySound(hash, disks, events, n);
    var rows := disks[n].artifacts;
    HandleInjective(Prefix(rows[i].digest), a, Prefix(rows[j].digest), b);
    assert Backed(hash, disks[n], rows[i]) && Backed(hash, disks[n], rows[j]);
    assert i < j ==> rows[i].id != rows[j].id;
    assert j < i ==> rows[j].id != rows[i].id;
  }

  // ---- The store ---------------------------------------------------------------------------------------------

  class Store {
    const hash: Hash
    var files: Directory
    var durable: Directory
    var artifacts: seq<Artifact>

    ghost function Contents(): Disk
      reads this
    {
      Disk(files, durable, artifacts)
    }

    constructor (hash: Hash)
      ensures this.hash == hash && Contents() == EMPTY
    {
      this.hash, files, durable, artifacts := hash, map[], map[], [];
    }

    method IngestFile(content: Bytes, x: Suffix, nonce: string, fault: Fault) returns (r: Outcome)
      modifies this
      ensures (Contents(), r) == Ingested(hash, old(Contents()), content, x, nonce, fault)
    {
      hide Destination, Temporary, ArtifactId, RowFor, IdTaken, Find;
      var digest := hash(content);
      var existing := Find(artifacts, digest);
      if existing.Some? {
        var backing := existing.value.storedPath;
        if backing !in files {
          return Rejected(MissingFile);
        }
        if hash(files[backing].content) != digest {
          return Rejected(HashMismatch);
        }
        return Deduplicated(existing.value);
      }
      if IdTaken(artifacts, ArtifactId(digest)) {
        return Rejected(PrefixCollision);
      }
      var stop := Write(content, Destination(digest, x), Temporary(digest, x, nonce), fault) by {
        DestinationsDiffer(digest, x, digest, x, nonce);
      }
      if stop.Some? {
        return stop.value;
      }
      artifacts := artifacts + [RowFor(digest, x)];
      return Created(RowFor(digest, x));
    }

    method Write(content: Bytes, destination: string, temporary: string, fault: Fault) returns (stop: Option<Outcome>)
      requires destination != temporary
      modifies this`files, this`durable
      ensures (Contents(), stop) == Publish(old(Contents()), content, destination, temporary, fault)
    {
      hide Staged, Renamed;
      stop := Stage(content, temporary, fault);
      if stop.Some? {
        return;
      }
      stop := Rename(content, destination, temporary, fault) by {
        StagedFile(old(files), content, temporary, fault);
      }
      if stop.Some? {
        return;
      }
      if At(fault, Syncing) {
        return Some(Interrupted(fault));
      }
      durable := files;
      if At(fault, Committing) {
        return Some(Interrupted(fault));
      }
    }

    method Stage(content: Bytes, temporary: string, fault: Fault) returns (stop: Option<Outcome>)
      modifies this`files
      ensures (files, stop) == Staged(old(files), content, temporary, fault)
    {
      if At(fault, Opening) {
        return Some(Interrupted(fault));
      }
      files := files[temporary := File(Written(content, fault), false)];
      if At(fault, Writing) || (At(fault, Flushing) && fault.Crash?) {
        return Some(Interrupted(fault));
      }
      files := files[temporary := File(content, false)];
      if At(fault, Flushing) {
        files := files - {temporary};
        assert files == old(files) - {temporary};
        return Some(Rejected(InputOutput));
      }
      files := files[temporary := files[temporary].(flushed := true)];
      assert files == old(files)[temporary := File(content, true)];
      return None;
    }

    method Rename(content: Bytes, destination: string, temporary: string, fault: Fault) returns (stop: Option<Outcome>)
      requires destination != temporary && temporary in files && files[temporary] == File(content, true)
      modifies this`files
      ensures (files, stop) == Renamed(old(files), content, destination, temporary, fault)
    {
      if (At(fault, Comparing) || At(fault, Publishing)) && fault.Crash? {
        return Some(Died);
      }
      if destination in files {
        if At(fault, Comparing) || files[destination].content != content {
          files := files - {temporary};
          return Some(Rejected(DifferentContent));
        }
        if At(fault, Publishing) {
          return Some(Rejected(InputOutput));
        }
        files := files - {temporary};
      } else {
        if At(fault, Comparing) {
          return Some(Rejected(InputOutput));
        }
        if At(fault, Publishing) {
          files := files - {temporary};
          return Some(Rejected(InputOutput));
        }
        files := files[destination := files[temporary]] - {temporary};
        assert files == (old(files) - {temporary})[destination := File(content, true)];
      }
      return None;
    }
  }

  lemma StagedFile(files: Directory, content: Bytes, temporary: string, fault: Fault)
    ensures var (after, stop) := Staged(files, content, temporary, fault);
            stop == None ==> temporary in after && after[temporary] == File(content, true)
  {
  }
}
