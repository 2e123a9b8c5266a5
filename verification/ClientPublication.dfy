/** Crash-safe publication of client generations (client_publication.py, POSIX branch).

    The disk is a value; a Publisher holds it and changes it one atomic step at a time. Before
    every step and after the last one the fault schedule may raise an exception or kill the
    process, so a contract that holds for every schedule holds after a crash between any two
    steps. A generation's digest is modelled as an injective function of the bytes. */
module ClientPublication {
  import opened Wrappers
  import opened Octets
  import opened Text

  const MANIFEST: string := ".generation.json"
  const ROUTE_STATE: string := "windows-route-bypass.state.json"
  const ROUTE_LOCK: string := ROUTE_STATE + ".lock"
  const INSTRUCTIONS: string := "NEXT-STEPS.txt"
  const MAX_GENERATIONS: nat := 32
  const MAX_GENERATION_BYTES: nat := 32 * 1024 * 1024

  // ---- The disk ---------------------------------------------------------------------------

  datatype Node = File(bytes: Bytes) | Directory(entries: seq<Entry>) | Symlink(dangling: bool) | Special

  datatype Entry = Entry(name: string, node: Node)

  datatype Digest = Sha256(bytes: Bytes)

  /** A generation directory; its manifest file is kept apart from the other entries. */
  datatype Generation = Generation(entries: seq<Entry>, manifest: Option<map<string, Digest>>)

  datatype Client =
    | Missing
    | Legacy(entries: seq<Entry>)
    | Pointer(generation: nat)
    | StrayFile

  datatype Journal = Journal(target: nat, previous: Option<nat>, legacy: Option<nat>)

  datatype RootNote = NoNote | NoteWritten | NoteOther | NoteDirectory

  datatype Disk = Disk(client: Client, journal: Option<Journal>, generations: map<nat, Generation>,
                       backups: map<nat, seq<Entry>>, note: RootNote, routeState: Option<Bytes>)

  function Lookup(entries: seq<Entry>, name: string): Option<Node> {
    if entries == [] then None
    else if entries[0].name == name then Some(entries[0].node)
    else Lookup(entries[1..], name)
  }

  predicate ValidName(name: string) {
    name != "" && name != "." && name != ".." && name != MANIFEST && '/' !in name
  }

  /** _validate_generation: a non-empty manifest whose every artifact is present with its digest. */
  predicate Complete(generation: Generation) {
    && generation.manifest.Some? && generation.manifest.value != map[]
    && forall name :: name in generation.manifest.value ==>
         ValidName(name)
         && match Lookup(generation.entries, name)
            case Some(File(bytes)) => generation.manifest.value[name] == Sha256(bytes)
            case _ => false
  }

  predicate Selects(disk: Disk, id: nat) {
    id in disk.generations && Complete(disk.generations[id])
  }

  // ---- What recovery settles on ----------------------------------------------------------------

  /** The disk recovery leaves behind when nothing interrupts it. */
  function Settle(disk: Disk): Disk {
    match disk.journal
    case None => disk
    case Some(journal) =>
      match disk.client
      case Pointer(_) => disk.(note := NoteWritten, journal := None)
      case Missing =>
        if journal.legacy.Some? && journal.legacy.value in disk.backups
        then disk.(client := Legacy(disk.backups[journal.legacy.value]),
                   backups := disk.backups - {journal.legacy.value}, journal := None)
        else disk.(journal := None)
      case _ => disk.(journal := None)
  }

  /** Every state the protocol can leave on disk, crashes included. */
  ghost predicate Sound(disk: Disk) {
    && !disk.client.StrayFile?
    && (disk.client.Pointer? ==> Selects(disk, disk.client.generation))
    && (disk.journal.Some? ==>
          var journal := disk.journal.value;
          && Selects(disk, journal.target)
          && !disk.note.NoteDirectory?
          && (disk.client.Pointer? ==>
                disk.client.generation == journal.target || Some(disk.client.generation) == journal.previous)
          && (disk.client.Missing? && journal.legacy.Some? ==> journal.legacy.value in disk.backups))
  }

  // ---- Faults ---------------------------------------------------------------------------------------

  datatype Fault = Go | Interrupt | Kill

  datatype Error =
    | Injected | NoteIsDirectory | NotADirectory | RetentionLimit | PayloadTooLarge | NameCollision
    | InvalidName | EmptyArtifact | OperatorLink | OperatorSpecial | OperatorTooLarge
    | RouteStateUnsafe | RouteLockUnsafe | RouteStateConflict | DirectoryExists | IncompleteGeneration
    | ForeignGeneration | UnexpectedFile | BackupMissing
    | NotPublished | MigrationRequiresRecovery | OutsideStorage

  datatype Exit = Raised(error: Error) | Killed

  type Attempt = Result<(), Exit>

  const DONE: Attempt := Success(())

  // ---- Legacy directories -----------------------------------------------------------------------------

  /** A legacy directory after its route lock has been opened for appending. */
  function WithLock(entries: seq<Entry>): seq<Entry> {
    if Lookup(entries, ROUTE_LOCK).None? then entries + [Entry(ROUTE_LOCK, File([]))] else entries
  }

  /** Adopting the route state opens the lock file and thereby creates it. */
  predicate GainsLock(entries: seq<Entry>) {
    && Lookup(entries, ROUTE_STATE).Some? && Lookup(entries, ROUTE_STATE).value.File?
    && Lookup(entries, ROUTE_LOCK).None?
  }

  predicate SameLegacy(now: seq<Entry>, earlier: seq<Entry>) {
    now == earlier || (GainsLock(earlier) && now == WithLock(earlier))
  }

  /** The entries of a legacy directory are at the client path or at a backup path. */
  ghost predicate LegacyHome(disk: Disk, entries: seq<Entry>) {
    || (disk.client.Legacy? && SameLegacy(disk.client.entries, entries))
    || exists id :: id in disk.backups && SameLegacy(disk.backups[id], entries)
  }

  // ---- What one session may change ---------------------------------------------------------------------

  /** No generation that exists is ever altered or removed. */
  ghost predicate Frozen(before: Disk, after: Disk) {
    forall id :: id in before.generations ==>
      id in after.generations && after.generations[id] == before.generations[id]
  }

  ghost predicate LegacyKept(before: Disk, after: Disk) {
    forall entries :: entries != [] && LegacyHome(before, entries) ==> LegacyHome(after, entries)
  }

  /** The settled client is the old one or a generation that did not exist before. */
  ghost predicate ClientMoves(before: Disk, after: Disk) {
    var former := Settle(before).client;
    var current := Settle(after).client;
    || current == former
    || (former.Legacy? && current.Legacy? && SameLegacy(current.entries, former.entries))
    || (current.Pointer? && current.generation !in before.generations && Selects(after, current.generation))
  }

  ghost predicate Evolves(before: Disk, after: Disk) {
    && Sound(after)
    && Frozen(before, after)
    && |after.generations| <= Max(|before.generations|, MAX_GENERATIONS)
    && LegacyKept(before, after)
    && ClientMoves(before, after)
    && (before.routeState.Some? ==> after.routeState == before.routeState)
  }

  lemma {:induction false} LockIsStable(entries: seq<Entry>)
    ensures Lookup(WithLock(entries), ROUTE_LOCK).Some?
    ensures !GainsLock(WithLock(entries))
  {
    if Lookup(entries, ROUTE_LOCK).None? { LookupAppended(entries, Entry(ROUTE_LOCK, File([])), ROUTE_LOCK); }
  }

  lemma {:induction false} LookupAppended(entries: seq<Entry>, entry: Entry, name: string)
    ensures Lookup(entries + [entry], name)
      == if Lookup(entries, name).Some? then Lookup(entries, name)
         else if entry.name == name then Some(entry.node) else None
  {
    if entries != [] {
      assert (entries + [entry])[1..] == entries[1..] + [entry];
      LookupAppended(entries[1..], entry, name);
    }
  }

  lemma {:induction false} SameLegacyTransitive(a: seq<Entry>, b: seq<Entry>, c: seq<Entry>)
    requires SameLegacy(a, b) && SameLegacy(b, c)
    ensures SameLegacy(a, c)
  {
    LockIsStable(c);
  }

  /** Sessions compose. */
  lemma {:induction false} EvolvesTransitive(a: Disk, b: Disk, c: Disk)
    requires Evolves(a, b) && Evolves(b, c)
    ensures Evolves(a, c)
  {
    var x, y, z := Settle(a).client, Settle(b).client, Settle(c).client;
    if x.Legacy? && y.Legacy? && z.Legacy? { SameLegacyTransitive(z.entries, y.entries, x.entries); }
  }

  // ---- Readers --------------------------------------------------------------------------------------------

  datatype Content = Pinned(id: nat, generation: Generation) | LegacyContent(entries: seq<Entry>)

  /** snapshot on a disk whose publication lock is free. */
  function Snapshot(disk: Disk): Result<Content, Error> {
    match disk.client
    case Pointer(id) =>
      if Selects(disk, id) then Success(Pinned(id, disk.generations[id])) else Failure(IncompleteGeneration)
    case Legacy(entries) => Success(LegacyContent(entries))
    case _ =>
      if disk.journal.None? || disk.journal.value.legacy.None? then Failure(NotPublished)
      else if disk.journal.value.legacy.value !in disk.backups then Failure(MigrationRequiresRecovery)
      else Success(LegacyContent(disk.backups[disk.journal.value.legacy.value]))
  }

  /** Readers that come before recovery see what recovery will settle on. */
  lemma {:induction false} ReadersAgreeWithRecovery(disk: Disk)
    requires Sound(disk)
    ensures Snapshot(disk) == match Settle(disk).client
                              case Pointer(id) => Success(Pinned(id, disk.generations[id]))
                              case Legacy(entries) => Success(LegacyContent(entries))
                              case _ => Failure(NotPublished)
  {
  }

  // ---- Payloads ----------------------------------------------------------------------------------------------

  /** A dictionary in insertion order; its keys are unique. */
  datatype Payload = Payload(name: string, bytes: Bytes)

  predicate UniqueNames(payloads: seq<Payload>) {
    forall i, j :: 0 <= i < j < |payloads| ==> payloads[i].name != payloads[j].name
  }

  predicate HasPayload(payloads: seq<Payload>, name: string) {
    exists p :: p in payloads && p.name == name
  }

  function Digests(payloads: seq<Payload>): map<string, Digest> {
    if payloads == [] then map[]
    else Digests(payloads[..|payloads| - 1])[payloads[|payloads| - 1].name := Sha256(payloads[|payloads| - 1].bytes)]
  }

  function Files(payloads: seq<Payload>): seq<Entry> {
    if payloads == [] then []
    else Files(payloads[..|payloads| - 1])
         + [Entry(payloads[|payloads| - 1].name, File(payloads[|payloads| - 1].bytes))]
  }

  /** {**payloads, "NEXT-STEPS.txt": bytes}: replaced in place, or added at the end. */
  function WithInstructions(payloads: seq<Payload>, bytes: Bytes): seq<Payload> {
    if payloads == [] then [Payload(INSTRUCTIONS, bytes)]
    else if payloads[0].name == INSTRUCTIONS then [Payload(INSTRUCTIONS, bytes)] + payloads[1..]
    else [payloads[0]] + WithInstructions(payloads[1..], bytes)
  }

  /** The payloads of a generation with this identifier; instructions depend on its path. */
  function Rendered(payloads: seq<Payload>, render: Option<nat -> Bytes>, id: nat): seq<Payload> {
    if render.None? then payloads else WithInstructions(payloads, render.value(id))
  }

  lemma {:induction false} InstructionsNames(payloads: seq<Payload>, bytes: Bytes, name: string)
    ensures HasPayload(WithInstructions(payloads, bytes), name) <==> HasPayload(payloads, name) || name == INSTRUCTIONS
  {
    if payloads != [] && payloads[0].name != INSTRUCTIONS {
      InstructionsNames(payloads[1..], bytes, name);
      assert payloads == [payloads[0]] + payloads[1..];
    } else if payloads != [] {
      assert payloads == [payloads[0]] + payloads[1..];
      assert Payload(INSTRUCTIONS, bytes) in WithInstructions(payloads, bytes);
    } else {
      assert Payload(INSTRUCTIONS, bytes) in WithInstructions(payloads, bytes);
    }
  }

  lemma {:induction false} InstructionsUnique(payloads: seq<Payload>, bytes: Bytes)
    requires UniqueNames(payloads)
    ensures UniqueNames(WithInstructions(payloads, bytes))
  {
    if payloads != [] && payloads[0].name != INSTRUCTIONS {
      assert UniqueNames(payloads[1..]);
      InstructionsUnique(payloads[1..], bytes);
      InstructionsNames(payloads[1..], bytes, payloads[0].name);
      var rest := WithInstructions(payloads[1..], bytes);
      assert !HasPayload(payloads[1..], payloads[0].name);
      forall j | 0 <= j < |rest| ensures rest[j].name != payloads[0].name {
        assert rest[j] in rest;
      }
    }
  }

  function TotalBytes(payloads: seq<Payload>): nat {
    if payloads == [] then 0 else TotalBytes(payloads[..|payloads| - 1]) + |payloads[|payloads| - 1].bytes|
  }

  predicate BlankByte(b: byte) { b == 32 || 9 <= b <= 13 || 28 <= b <= 31 }

  /** A text without a visible character. */
  predicate Blank(bytes: Bytes) { forall b :: b in bytes ==> BlankByte(b) }

  // ---- Operator files -----------------------------------------------------------------------------------------

  /** What a successful copy of a directory contains. */
  function Kept(entries: seq<Entry>, excluded: set<string>): seq<Entry> {
    if entries == [] then []
    else Kept(entries[..|entries| - 1], excluded)
         + (if entries[|entries| - 1].name in excluded then [] else [entries[|entries| - 1]])
  }

  function SizeOf(entries: seq<Entry>): nat {
    if entries == [] then 0
    else SizeOf(entries[..|entries| - 1]) + SizeOfNode(entries[|entries| - 1].node)
  }

  function SizeOfNode(node: Node): nat {
    match node
    case File(bytes) => |bytes|
    case Directory(entries) => SizeOf(entries)
    case _ => 0
  }

  /** Only files and directories, at every depth. */
  predicate Copyable(entries: seq<Entry>) {
    forall e :: e in entries ==> CopyableNode(e.node)
  }

  predicate CopyableNode(node: Node) {
    match node
    case File(_) => true
    case Directory(inner) => Copyable(inner)
    case _ => false
  }

  /** The generation a publication stages. */
  function Staged(payloads: seq<Payload>, source: seq<Entry>, excluded: set<string>): Generation {
    Generation(Files(payloads) + Kept(source, excluded), Some(Digests(payloads)))
  }

  predicate WritablePayload(payload: Payload) { ValidName(payload.name) && !Blank(payload.bytes) }

  predicate AllWritable(payloads: seq<Payload>) {
    forall j :: 0 <= j < |payloads| ==> WritablePayload(payloads[j])
  }

  predicate Stageable(payloads: seq<Payload>, source: seq<Entry>, excluded: set<string>, budget: int) {
    payloads != [] && AllWritable(payloads) && Copyable(Kept(source, excluded))
      && SizeOf(Kept(source, excluded)) <= budget
  }

  predicate OnlyAdds(before: Disk, after: Disk, id: nat) {
    && after == before.(generations := after.generations)
    && (after.generations == before.generations
        || (id !in before.generations && id in after.generations
            && after.generations == before.generations[id := after.generations[id]]))
  }

  predicate StageError(exit: Exit) {
    CopyError(exit) || exit.error in {DirectoryExists, InvalidName, EmptyArtifact, IncompleteGeneration}
  }

  lemma {:induction false} LookupConcat(a: seq<Entry>, b: seq<Entry>, name: string)
    ensures Lookup(a + b, name) == if Lookup(a, name).Some? then Lookup(a, name) else Lookup(b, name)
  {
    if a == [] {
      assert a + b == b;
    } else {
      assert (a + b)[1..] == a[1..] + b;
      LookupConcat(a[1..], b, name);
    }
  }

  /** Files and digests of payloads agree, name by name. */
  lemma {:induction false} FilesMatchDigests(payloads: seq<Payload>, name: string)
    requires UniqueNames(payloads)
    ensures name in Digests(payloads) <==> HasPayload(payloads, name)
    ensures name in Digests(payloads) ==>
      Lookup(Files(payloads), name).Some? && Lookup(Files(payloads), name).value.File?
      && Digests(payloads)[name] == Sha256(Lookup(Files(payloads), name).value.bytes)
    ensures name !in Digests(payloads) ==> Lookup(Files(payloads), name).None?
  {
    if payloads != [] {
      var n := |payloads| - 1;
      var last := payloads[n];
      FilesMatchDigests(payloads[..n], name);
      LookupAppended(Files(payloads[..n]), Entry(last.name, File(last.bytes)), name);
      assert payloads == payloads[..n] + [last];
      forall p | p in payloads[..n] ensures p.name != last.name {
        var i :| 0 <= i < n && payloads[i] == p;
      }
    }
  }

  lemma {:induction false} StagedComplete(payloads: seq<Payload>, kept: seq<Entry>)
    requires UniqueNames(payloads) && AllWritable(payloads)
    ensures Complete(Generation(Files(payloads) + kept, Some(Digests(payloads)))) <==> payloads != []
  {
    forall name | name in Digests(payloads)
      ensures ValidName(name)
      ensures Lookup(Files(payloads) + kept, name) == Lookup(Files(payloads), name)
      ensures Lookup(Files(payloads), name).Some? && Lookup(Files(payloads), name).value.File?
      ensures Digests(payloads)[name] == Sha256(Lookup(Files(payloads), name).value.bytes)
    {
      FilesMatchDigests(payloads, name);
      LookupConcat(Files(payloads), kept, name);
    }
    if payloads != [] {
      FilesMatchDigests(payloads, payloads[0].name);
    }
  }

  // ---- Route ownership state of a legacy directory ------------------------------------------------------------

  predicate PathExists(node: Option<Node>) {
    node.Some? && node.value != Symlink(true)
  }

  /** What _legacy_route_state does with a legacy directory and the stable route state. */
  function RouteProblem(entries: seq<Entry>, stable: Option<Bytes>): Option<Error> {
    var state := Lookup(entries, ROUTE_STATE);
    var lock := Lookup(entries, ROUTE_LOCK);
    if !PathExists(state) then None
    else if !state.value.File? then Some(RouteStateUnsafe)
    else if lock.Some? && !lock.value.File? then Some(RouteLockUnsafe)
    else if stable.Some? && stable.value != state.value.bytes then Some(RouteStateConflict)
    else None
  }

  // ---- The publisher ---------------------------------------------------------------------------------------------

  predicate Quiet(faults: seq<Fault>) { forall i :: 0 <= i < |faults| ==> faults[i] == Go }

  predicate OnlyInjected(exit: Exit) { exit == Killed || exit == Raised(Injected) }

  lemma {:induction false} RestoreKeepsLegacy(disk: Disk, id: nat)
    requires disk.client.Missing? && id in disk.backups
    ensures LegacyKept(disk, disk.(client := Legacy(disk.backups[id]), backups := disk.backups - {id}))
  {
    var after := disk.(client := Legacy(disk.backups[id]), backups := disk.backups - {id});
    forall entries | LegacyHome(disk, entries) ensures LegacyHome(after, entries) {
      var home :| home in disk.backups && SameLegacy(disk.backups[home], entries);
      if home != id { assert home in after.backups; }
    }
  }

  predicate SwitchProblem(exit: Exit) {
    OnlyInjected(exit) || exit.error in {DirectoryExists, RouteStateUnsafe, RouteLockUnsafe, RouteStateConflict,
                                         NoteIsDirectory}
  }

  /** The disk after the route state of a moved directory has been adopted. */
  function Adopted(disk: Disk, backup: nat): Disk
    requires backup in disk.backups
  {
    var entries := disk.backups[backup];
    var state := Lookup(entries, ROUTE_STATE);
    if PathExists(state) && state.value.File?
    then disk.(backups := disk.backups[backup := WithLock(entries)], routeState := Some(state.value.bytes))
    else disk
  }

  predicate Movable(disk: Disk, legacy: Option<nat>)
    requires legacy.Some? ==> disk.client.Legacy?
  {
    legacy.Some? ==>
      !(legacy.value in disk.backups && disk.backups[legacy.value] != [])
      && RouteProblem(disk.client.entries, disk.routeState).None?
  }

  /** The disk after the journalled part has run to its end. */
  function Activated(disk: Disk, id: nat, legacy: Option<nat>): Disk
    requires legacy.Some? ==> disk.client.Legacy?
  {
    var moved := if legacy.None? then disk
                 else Adopted(disk.(client := Missing, backups := disk.backups[legacy.value := disk.client.entries]),
                              legacy.value);
    moved.(client := Pointer(id), note := NoteWritten, journal := None)
  }

  lemma {:induction false} MovedAside(origin: Disk, disk: Disk, id: nat)
    requires Evolves(origin, disk) && disk.client.Legacy?
    requires disk.journal.Some? && disk.journal.value.legacy == Some(id)
    requires id in disk.backups ==> disk.backups[id] == []
    ensures Evolves(origin, disk.(client := Missing, backups := disk.backups[id := disk.client.entries]))
  {
    var after := disk.(client := Missing, backups := disk.backups[id := disk.client.entries]);
    assert Settle(after).client == disk.client;
    forall entries | entries != [] && LegacyHome(disk, entries) ensures LegacyHome(after, entries) {
      if SameLegacy(disk.client.entries, entries) {
        assert after.backups[id] == disk.client.entries;
      } else {
        var home :| home in disk.backups && SameLegacy(disk.backups[home], entries);
        assert home != id by { EmptyHasNoState(entries); }
        assert after.backups[home] == disk.backups[home];
      }
    }
  }

  lemma {:induction false} EmptyHasNoState(entries: seq<Entry>)
    ensures SameLegacy([], entries) ==> entries == []
  {
  }

  lemma {:induction false} RouteAdopted(origin: Disk, before: Disk, after: Disk, id: nat)
    requires Evolves(origin, before) && before.client.Missing? && id in before.backups
    requires before.journal.Some? && before.journal.value.legacy == Some(id)
    requires after == before.(backups := after.backups, routeState := after.routeState)
    requires before.routeState.Some? ==> after.routeState == before.routeState
    requires after.backups == before.backups
             || (GainsLock(before.backups[id]) && after.backups == before.backups[id := WithLock(before.backups[id])])
    ensures Evolves(origin, after)
  {
    LockIsStable(before.backups[id]);
    var former := Settle(origin).client;
    assert Settle(before).client == Legacy(before.backups[id]);
    if former.Legacy? { LockIsStable(former.entries); }
    forall entries | entries != [] && LegacyHome(before, entries) ensures LegacyHome(after, entries) {
      LockIsStable(entries);
      var home :| home in before.backups && SameLegacy(before.backups[home], entries);
      assert SameLegacy(after.backups[home], entries);
    }
  }

  lemma {:induction false} PointerSet(origin: Disk, disk: Disk, id: nat)
    requires Evolves(origin, disk) && id !in origin.generations
    requires disk.journal.Some? && disk.journal.value.target == id && !disk.client.Legacy?
    ensures Evolves(origin, disk.(client := Pointer(id)))
  {
    var after := disk.(client := Pointer(id));
    forall entries | entries != [] && LegacyHome(disk, entries) ensures LegacyHome(after, entries) {
      var home :| home in disk.backups && SameLegacy(disk.backups[home], entries);
      assert home in after.backups;
    }
  }

  lemma {:induction false} Finished(origin: Disk, before: Disk, after: Disk)
    requires Evolves(origin, before) && before.client.Pointer?
    requires after == before.(note := after.note, journal := after.journal)
    requires after.note == before.note || after.note == NoteWritten
    requires after.journal == before.journal || after.journal.None?
    ensures Evolves(origin, after)
  {
    forall entries | entries != [] && LegacyHome(before, entries) ensures LegacyHome(after, entries) {
      var home :| home in before.backups && SameLegacy(before.backups[home], entries);
      assert home in after.backups;
    }
  }

  // ---- Publication as a function of the settled disk -----------------------------------------------------------

  predicate PresentIn(generation: Generation, name: string) {
    (name == MANIFEST && generation.manifest.Some?) || Lookup(generation.entries, name).Some?
  }

  /** The published generation already holds these payloads and no stale artifact. */
  predicate Unchanged(generation: Generation, files: seq<Payload>, stale: seq<string>) {
    generation.manifest == Some(Digests(files)) && forall name :: name in stale ==> !PresentIn(generation, name)
  }

  predicate IsNoop(disk: Disk, payloads: seq<Payload>, stale: seq<string>, render: Option<nat -> Bytes>) {
    && disk.client.Pointer? && disk.client.generation in disk.generations
    && Unchanged(disk.generations[disk.client.generation], Rendered(payloads, render, disk.client.generation), stale)
  }

  /** The directory whose operator files are carried over. */
  function SourceOf(disk: Disk): seq<Entry> {
    match disk.client
    case Pointer(id) => if id in disk.generations then disk.generations[id].entries else []
    case Legacy(entries) => entries
    case _ => []
  }

  predicate Collides(files: seq<Payload>) {
    exists p :: p in files && Lower(p.name) == Lower(MANIFEST)
  }

  function Names(files: seq<Payload>): set<string> { set p | p in files :: p.name }

  function Excluded(files: seq<Payload>, stale: seq<string>): set<string> {
    Names(files) + (set name | name in stale) + {MANIFEST, ROUTE_STATE, ROUTE_LOCK}
  }

  predicate NewAdmissible(disk: Disk, files: seq<Payload>, excluded: set<string>, id: nat, legacyId: nat, budget: int) {
    && id !in disk.generations
    && Stageable(files, SourceOf(disk), excluded, budget)
    && Movable(disk, if disk.client.Legacy? then Some(legacyId) else None)
  }

  function NewDisk(disk: Disk, files: seq<Payload>, excluded: set<string>, id: nat, legacyId: nat): Disk {
    Activated(disk.(generations := disk.generations[id := Staged(files, SourceOf(disk), excluded)]), id,
              if disk.client.Legacy? then Some(legacyId) else None)
  }

  /** What one publication asks for; id and legacyId are the identifiers it would use. */
  datatype Request = Request(payloads: seq<Payload>, stale: seq<string>, render: Option<nat -> Bytes>, id: nat,
                             legacyId: nat) {
    function Content(): seq<Payload> { Rendered(payloads, render, id) }

    function Excludes(): set<string> { Excluded(Content(), stale) }

    /** What the payloads leave for operator files. */
    function Budget(): int { MAX_GENERATION_BYTES - TotalBytes(Content()) }
  }

  /** The generation a request stages on a settled disk: its payloads, and the operator files of
      the directory it replaces. */
  function StagedFor(disk: Disk, request: Request): Generation {
    Staged(request.Content(), SourceOf(disk), request.Excludes())
  }

  /** The settled disk already shows what is requested. */
  predicate AlreadyShown(disk: Disk, request: Request) {
    IsNoop(disk, request.payloads, request.stale, request.render)
  }

  /** There is room for one more generation with these files. */
  predicate HasRoom(disk: Disk, request: Request) {
    |disk.generations| < MAX_GENERATIONS && request.Budget() >= 0 && !Collides(request.Content())
  }

  /** A new generation can be staged, journalled and switched to. */
  predicate CanAdd(disk: Disk, request: Request) {
    NewAdmissible(disk, request.Content(), request.Excludes(), request.id, request.legacyId, request.Budget())
  }

  /** When a publication without faults succeeds. */
  predicate Admissible(disk: Disk, request: Request) {
    !disk.note.NoteDirectory? && (AlreadyShown(disk, request) || (HasRoom(disk, request) && CanAdd(disk, request)))
  }

  /** What a successful publication leaves behind. */
  function PublishedDisk(disk: Disk, request: Request): Disk {
    if AlreadyShown(disk, request) then disk
    else NewDisk(disk, request.Content(), request.Excludes(), request.id, request.legacyId)
  }

  /** Whatever became of an attempt to add a generation, crashes included: no other directory
      appeared, and a client that moved shows exactly the staged generation. */
  ghost predicate Arrives(before: Disk, after: Disk, id: nat, staged: Generation) {
    && (forall g :: g in after.generations && g !in before.generations ==> g == id)
    && (after.client.Pointer? ==>
          || after.client == before.client
          || (after.client == Pointer(id) && id !in before.generations
              && id in after.generations && after.generations[id] == staged))
  }

  /** A legacy directory after an attempt to adopt its route state. */
  function Locked(entries: seq<Entry>): seq<Entry> { if GainsLock(entries) then WithLock(entries) else entries }

  /** The identifier for the moved directory is taken. */
  predicate BackupTaken(disk: Disk, backup: nat) { backup in disk.backups && disk.backups[backup] != [] }

  /** The disk after a switch from a legacy directory has failed without a fault. */
  function Stranded(disk: Disk, backup: nat): Disk
    requires disk.client.Legacy?
  {
    if BackupTaken(disk, backup) then disk
    else disk.(client := Missing, backups := disk.backups[backup := Locked(disk.client.entries)])
  }

  /** A migration without faults fails after it created the lock file: everything up to the
      adoption succeeds, and a different stable route state is already there. */
  predicate StrandsLock(disk: Disk, files: seq<Payload>, excluded: set<string>, id: nat, legacyId: nat, budget: int) {
    && disk.client.Legacy? && GainsLock(disk.client.entries)
    && id !in disk.generations && Stageable(files, SourceOf(disk), excluded, budget) && !BackupTaken(disk, legacyId)
    && RouteProblem(disk.client.entries, disk.routeState) == Some(RouteStateConflict)
  }

  /** A request that leaves the lock file behind in a legacy directory. */
  predicate LeavesLock(disk: Disk, request: Request) {
    && !disk.note.NoteDirectory? && HasRoom(disk, request)
    && StrandsLock(disk, request.Content(), request.Excludes(), request.id, request.legacyId, request.Budget())
  }

  /** Neither staging nor switching raises the errors of recovery. */
  lemma {:induction false} ForeignToStaging()
    ensures forall exit: Exit :: exit.Raised? && (StageError(exit) || SwitchProblem(exit)) ==>
      exit.error !in {ForeignGeneration, UnexpectedFile, BackupMissing}
  {
  }

  lemma {:induction false} JournalIrrelevant(settled: Disk, disk: Disk, journal: Option<Journal>, id: nat,
                                             legacy: Option<nat>)
    requires OnlyAdds(settled, disk, id) && (legacy.Some? ==> disk.client.Legacy?)
    ensures Activated(disk.(journal := journal), id, legacy) == Activated(disk, id, legacy)
    ensures Movable(disk.(journal := journal), legacy) == Movable(settled, legacy)
  {
  }

  lemma {:induction false} NewClient(disk: Disk, files: seq<Payload>, excluded: set<string>, id: nat, legacyId: nat)
    ensures NewDisk(disk, files, excluded, id, legacyId).client == Pointer(id)
    ensures NewDisk(disk, files, excluded, id, legacyId).generations
      == disk.generations[id := Staged(files, SourceOf(disk), excluded)]
  {
  }

  lemma {:induction false} SoundClient(disk: Disk)
    requires Sound(disk)
    ensures Settle(disk).client.Pointer? ==>
      Settle(disk).client.generation in disk.generations && Complete(disk.generations[Settle(disk).client.generation])
    ensures !Settle(disk).client.StrayFile?
  {
  }

  lemma {:induction false} EvolvesSound(origin: Disk, disk: Disk)
    requires Evolves(origin, disk)
    ensures Sound(disk)
  {
  }

  lemma {:induction false} EvolvesRefl(disk: Disk)
    requires Sound(disk)
    ensures Evolves(disk, disk)
  {
  }

  lemma {:induction false} SettleKeeps(disk: Disk)
    requires Sound(disk)
    ensures Settle(disk).journal.None? && Settle(disk).generations == disk.generations
    ensures Settle(disk).note.NoteDirectory? <==> disk.note.NoteDirectory?
  {
  }

  lemma {:induction false} RenderedUnique(payloads: seq<Payload>, render: Option<nat -> Bytes>, id: nat)
    requires UniqueNames(payloads)
    ensures UniqueNames(Rendered(payloads, render, id))
  {
    if render.Some? { InstructionsUnique(payloads, render.value(id)); }
  }

  lemma {:induction false} StagedEvolves(origin: Disk, settled: Disk, disk: Disk, id: nat)
    requires Evolves(origin, settled) && settled.journal.None? && |settled.generations| < MAX_GENERATIONS
    requires OnlyAdds(settled, disk, id)
    ensures Evolves(origin, disk)
  {
    assert |disk.generations| <= |settled.generations| + 1;
  }

  lemma {:induction false} JournalledEvolves(origin: Disk, disk: Disk, journal: Journal)
    requires Evolves(origin, disk) && disk.journal.None? && !disk.note.NoteDirectory?
    requires Selects(disk, journal.target)
    requires disk.client.Pointer? ==> journal.previous == Some(disk.client.generation)
    requires disk.client.Missing? ==> journal.legacy.None?
    ensures Evolves(origin, disk.(journal := Some(journal)))
  {
    var after := disk.(journal := Some(journal));
    forall entries | entries != [] && LegacyHome(disk, entries) ensures LegacyHome(after, entries) {
      if !(disk.client.Legacy? && SameLegacy(disk.client.entries, entries)) {
        var home :| home in disk.backups && SameLegacy(disk.backups[home], entries);
        assert home in after.backups;
      }
    }
  }

  // ---- What republishing does ----------------------------------------------------------------------------------

  /** The same artifact names with the same digests, apart from the instructions. */
  predicate SameArtifacts(generation: Generation, other: Generation) {
    && generation.manifest.Some? && other.manifest.Some?
    && generation.manifest.value.Keys == other.manifest.value.Keys
    && forall name :: name in other.manifest.value && name != INSTRUCTIONS ==>
         generation.manifest.value[name] == other.manifest.value[name]
  }

  lemma {:induction false} SettledAgain(disk: Disk)
    ensures Settle(Settle(disk)) == Settle(disk)
  {
  }

  lemma {:induction false} ListedFile(generation: Generation, name: string)
    requires Complete(generation) && name in generation.manifest.value
    ensures Lookup(generation.entries, name).Some? && Lookup(generation.entries, name).value.File?
    ensures generation.manifest.value[name] == Sha256(Lookup(generation.entries, name).value.bytes)
  {
  }

  lemma {:induction false} OneMoreDigest(payloads: seq<Payload>, next: Payload, manifest: map<string, Digest>,
                                         remaining: set<string>)
    requires Digests(payloads) == manifest - remaining && next.name in remaining && remaining <= manifest.Keys
    requires manifest[next.name] == Sha256(next.bytes)
    ensures Digests(payloads + [next]) == manifest - (remaining - {next.name})
  {
    assert (payloads + [next])[..|payloads|] == payloads;
  }

  lemma {:induction false} DigestNames(payloads: seq<Payload>, name: string)
    ensures name in Digests(payloads) <==> HasPayload(payloads, name)
  {
    if payloads != [] {
      DigestNames(payloads[..|payloads| - 1], name);
      assert payloads == payloads[..|payloads| - 1] + [payloads[|payloads| - 1]];
    }
  }

  lemma {:induction false} DigestOf(payloads: seq<Payload>, i: nat)
    requires i < |payloads| && UniqueNames(payloads)
    ensures payloads[i].name in Digests(payloads) && Digests(payloads)[payloads[i].name] == Sha256(payloads[i].bytes)
  {
    if i < |payloads| - 1 { DigestOf(payloads[..|payloads| - 1], i); }
  }

  lemma {:induction false} InstructionsKeep(payloads: seq<Payload>, bytes: Bytes, i: nat) returns (j: nat)
    requires i < |payloads| && payloads[i].name != INSTRUCTIONS
    ensures j < |WithInstructions(payloads, bytes)| && WithInstructions(payloads, bytes)[j] == payloads[i]
  {
    if payloads[0].name == INSTRUCTIONS || i == 0 {
      j := i;
    } else {
      j := InstructionsKeep(payloads[1..], bytes, i - 1);
      j := j + 1;
    }
  }

  lemma {:induction false} InstructionsDigests(payloads: seq<Payload>, bytes: Bytes)
    requires UniqueNames(payloads) && HasPayload(payloads, INSTRUCTIONS)
    ensures Digests(WithInstructions(payloads, bytes)).Keys == Digests(payloads).Keys
    ensures forall name :: name in Digests(payloads) && name != INSTRUCTIONS ==>
      Digests(WithInstructions(payloads, bytes))[name] == Digests(payloads)[name]
  {
    var files := WithInstructions(payloads, bytes);
    InstructionsUnique(payloads, bytes);
    forall name ensures name in Digests(files) <==> name in Digests(payloads) {
      DigestNames(payloads, name);
      DigestNames(files, name);
      InstructionsNames(payloads, bytes, name);
    }
    forall name | name in Digests(payloads) && name != INSTRUCTIONS
      ensures Digests(files)[name] == Digests(payloads)[name]
    {
      DigestNames(payloads, name);
      var p :| p in payloads && p.name == name;
      var i :| 0 <= i < |payloads| && payloads[i] == p;
      var j := InstructionsKeep(payloads, bytes, i);
      DigestOf(payloads, i);
      DigestOf(files, j);
    }
  }

  lemma {:induction false} RenderedDigests(payloads: seq<Payload>, render: Option<nat -> Bytes>, id: nat)
    requires UniqueNames(payloads) && (render.Some? ==> INSTRUCTIONS in Digests(payloads))
    ensures Digests(Rendered(payloads, render, id)).Keys == Digests(payloads).Keys
    ensures forall name :: name in Digests(payloads) && name != INSTRUCTIONS ==>
      Digests(Rendered(payloads, render, id))[name] == Digests(payloads)[name]
  {
    if render.Some? {
      DigestNames(payloads, INSTRUCTIONS);
      InstructionsDigests(payloads, render.value(id));
    }
  }

  /** The manifest of the generation a publication selects lists exactly its payloads. */
  lemma {:induction false} PublishedManifest(disk: Disk, request: Request)
    ensures var after := PublishedDisk(disk, request);
      && after.client.Pointer? && after.client.generation in after.generations
      && after.generations[after.client.generation].manifest
         == Some(Digests(Rendered(request.payloads, request.render, after.client.generation)))
      && (disk.journal.None? ==> after.journal.None?)
  {
  }

  /** Rendering the recorded payloads of a generation again keeps its artifacts. */
  lemma {:induction false} StagedArtifacts(disk: Disk, chosen: Generation, request: Request)
    requires chosen.manifest == Some(Digests(request.payloads)) && UniqueNames(request.payloads)
    requires request.render.Some? ==> INSTRUCTIONS in Digests(request.payloads)
    ensures SameArtifacts(StagedFor(disk, request), chosen)
  {
    RenderedDigests(request.payloads, request.render, request.id);
  }

  lemma {:induction false} RepublishedArtifacts(disk: Disk, chosen: Generation, request: Request)
    requires chosen.manifest == Some(Digests(request.payloads)) && UniqueNames(request.payloads) && disk.journal.None?
    requires request.render.Some? ==> INSTRUCTIONS in Digests(request.payloads)
    ensures var after := PublishedDisk(disk, request);
      && after.client.Pointer? && after.client.generation in after.generations && after.journal.None?
      && SameArtifacts(after.generations[after.client.generation], chosen)
  {
    PublishedManifest(disk, request);
    RenderedDigests(request.payloads, request.render, PublishedDisk(disk, request).client.generation);
  }

  lemma {:induction false} NamesAreDigests(files: seq<Payload>, name: string)
    ensures name in Names(files) <==> name in Digests(files)
  {
    DigestNames(files, name);
  }

  /** The stale list names neither a payload nor the manifest. */
  predicate StaleAvoids(files: seq<Payload>, stale: seq<string>) {
    forall name :: name in stale ==> name !in Names(files) && name != MANIFEST
  }

  /** The artifacts a complete generation lists are present in it. */
  lemma {:induction false} ListedIsPresent(generation: Generation, files: seq<Payload>, stale: seq<string>)
    requires Complete(generation) && Unchanged(generation, files, stale)
    ensures StaleAvoids(files, stale)
  {
    forall name | name in stale ensures name !in Names(files) && name != MANIFEST {
      NamesAreDigests(files, name);
    }
  }

  /** A stale name is present in a new generation exactly when it names a payload or the manifest. */
  lemma {:induction false} StaleInStaged(files: seq<Payload>, source: seq<Entry>, stale: seq<string>, name: string)
    requires UniqueNames(files) && name in stale
    ensures PresentIn(Staged(files, source, Excluded(files, stale)), name) <==> name in Names(files) || name == MANIFEST
  {
    assert name in Excluded(files, stale);
    KeptLookup(source, Excluded(files, stale), name);
    hide Excluded, Names;
    LookupConcat(Files(files), Kept(source, Excluded(files, stale)), name);
    FilesMatchDigests(files, name);
    NamesAreDigests(files, name);
  }

  lemma {:induction false} StagedUnchanged(files: seq<Payload>, source: seq<Entry>, stale: seq<string>)
    requires UniqueNames(files)
    ensures Unchanged(Staged(files, source, Excluded(files, stale)), files, stale)
      <==> StaleAvoids(files, stale)
  {
    hide PresentIn, Excluded, Names, Kept, Files;
    forall name | name in stale
      ensures PresentIn(Staged(files, source, Excluded(files, stale)), name)
              <==> name in Names(files) || name == MANIFEST
    {
      StaleInStaged(files, source, stale, name);
    }
  }

  lemma {:induction false} RepublishNew(disk: Disk, request: Request)
    requires UniqueNames(request.payloads)
    ensures AlreadyShown(NewDisk(disk, request.Content(), request.Excludes(), request.id, request.legacyId), request)
      <==> StaleAvoids(request.Content(), request.stale)
  {
    var files := request.Content();
    RenderedUnique(request.payloads, request.render, request.id);
    NewClient(disk, files, request.Excludes(), request.id, request.legacyId);
    StagedUnchanged(files, SourceOf(disk), request.stale);
    hide Unchanged, UniqueNames, Rendered, Excluded, Staged, StaleAvoids, NewDisk;
  }

  /** Publishing the same payloads again changes nothing, exactly when the stale list names
      neither a payload nor the manifest. */
  lemma {:induction false} RepublishIsNoop(disk: Disk, request: Request)
    requires Sound(disk) && disk.journal.None? && UniqueNames(request.payloads)
    ensures var after := PublishedDisk(disk, request);
      after.client.Pointer?
      && (AlreadyShown(after, request)
          <==> StaleAvoids(Rendered(request.payloads, request.render, after.client.generation), request.stale))
  {
    SoundClient(disk);
    if AlreadyShown(disk, request) {
      var shown := Rendered(request.payloads, request.render, disk.client.generation);
      hide Unchanged, Complete, StaleAvoids, Rendered;
      ListedIsPresent(disk.generations[disk.client.generation], shown, request.stale);
    } else {
      hide NewDisk, IsNoop, StaleAvoids, Rendered, Excluded;
      NewClient(disk, request.Content(), request.Excludes(), request.id, request.legacyId);
      RepublishNew(disk, request);
    }
  }

  // ---- What a new generation shows -----------------------------------------------------------------------------

  /** The bytes a list of payloads has under a name. */
  function BytesOf(payloads: seq<Payload>, name: string): Option<Bytes> {
    if payloads == [] then None
    else if payloads[0].name == name then Some(payloads[0].bytes)
    else BytesOf(payloads[1..], name)
  }

  /** The bytes a request asks for under a name; rendered instructions replace a payload. */
  function Asked(request: Request, name: string): Option<Bytes> {
    if request.render.Some? && name == INSTRUCTIONS then Some(request.render.value(request.id))
    else BytesOf(request.payloads, name)
  }

  /** The entries a reader sees. */
  function Seen(disk: Disk): seq<Entry> {
    match Snapshot(disk)
    case Success(Pinned(_, generation)) => generation.entries
    case Success(LegacyContent(entries)) => entries
    case Failure(_) => []
  }

  /** Names under which nothing is carried over. */
  predicate Dropped(request: Request, name: string) {
    name in request.stale || name == MANIFEST || name == ROUTE_STATE || name == ROUTE_LOCK
  }

  /** Under this name a generation shows what was asked for, or else what readers saw before, unless
      the name is stale or reserved; its manifest records exactly what was asked for. */
  predicate ShowsUnder(generation: Generation, request: Request, seen: seq<Entry>, name: string)
    requires generation.manifest.Some?
  {
    && Lookup(generation.entries, name) ==
         (match Asked(request, name)
          case Some(bytes) => Some(File(bytes))
          case None => if Dropped(request, name) then None else Lookup(seen, name))
    && (forall e :: e in generation.entries && e.name == name && Asked(request, name).None? ==>
          e in seen && !Dropped(request, name))
    && (forall e :: e in seen && e.name == name && Asked(request, name).None? && !Dropped(request, name) ==>
          e in generation.entries)
    && (name in generation.manifest.value <==> Asked(request, name).Some?)
    && (name in generation.manifest.value ==> generation.manifest.value[name] == Sha256(Asked(request, name).value))
  }

  ghost predicate Shows(generation: Generation, request: Request, seen: seq<Entry>) {
    generation.manifest.Some? && forall name :: ShowsUnder(generation, request, seen, name)
  }

  lemma {:induction false} FilesFront(payloads: seq<Payload>)
    requires payloads != []
    ensures Files(payloads) == [Entry(payloads[0].name, File(payloads[0].bytes))] + Files(payloads[1..])
  {
    var n := |payloads| - 1;
    if n > 0 {
      FilesFront(payloads[..n]);
      assert payloads[..n][1..] == payloads[1..][..n - 1];
    }
  }

  lemma {:induction false} FilesLookup(payloads: seq<Payload>, name: string)
    ensures Lookup(Files(payloads), name)
      == match BytesOf(payloads, name) case Some(bytes) => Some(File(bytes)) case None => None
    ensures forall e :: e in Files(payloads) && e.name == name ==> BytesOf(payloads, name).Some?
  {
    if payloads != [] {
      FilesFront(payloads);
      FilesLookup(payloads[1..], name);
      var first := Entry(payloads[0].name, File(payloads[0].bytes));
      assert ([first] + Files(payloads[1..]))[1..] == Files(payloads[1..]);
    }
  }

  lemma {:induction false} InstructionsBytes(payloads: seq<Payload>, bytes: Bytes, name: string)
    ensures BytesOf(WithInstructions(payloads, bytes), name)
      == if name == INSTRUCTIONS then Some(bytes) else BytesOf(payloads, name)
  {
    if payloads != [] && payloads[0].name != INSTRUCTIONS {
      InstructionsBytes(payloads[1..], bytes, name);
      assert WithInstructions(payloads, bytes)[1..] == WithInstructions(payloads[1..], bytes);
    } else if payloads != [] {
      assert WithInstructions(payloads, bytes)[1..] == payloads[1..];
    }
  }

  lemma {:induction false} ContentBytes(request: Request, name: string)
    ensures BytesOf(request.Content(), name) == Asked(request, name)
  {
    if request.render.Some? { InstructionsBytes(request.payloads, request.render.value(request.id), name); }
  }

  lemma {:induction false} KeptLookup(source: seq<Entry>, excluded: set<string>, name: string)
    ensures Lookup(Kept(source, excluded), name) == if name in excluded then None else Lookup(source, name)
  {
    if source != [] {
      var n := |source| - 1;
      KeptLookup(source[..n], excluded, name);
      LookupConcat(Kept(source[..n], excluded), if source[n].name in excluded then [] else [source[n]], name);
      LookupConcat(source[..n], [source[n]], name);
      assert source == source[..n] + [source[n]];
    }
  }

  lemma {:induction false} KeptMembers(source: seq<Entry>, excluded: set<string>)
    ensures forall e :: e in Kept(source, excluded) <==> e in source && e.name !in excluded
  {
    if source != [] {
      var n := |source| - 1;
      KeptMembers(source[..n], excluded);
      assert source == source[..n] + [source[n]];
    }
  }

  lemma {:induction false} NamesAreAsked(request: Request, name: string)
    ensures name in request.Excludes() <==> Asked(request, name).Some? || Dropped(request, name)
  {
    ContentBytes(request, name);
    FilesLookup(request.Content(), name);
    NamesAreBytes(request.Content(), name);
    hide Asked;
  }

  lemma {:induction false} NamesAreBytes(payloads: seq<Payload>, name: string)
    ensures name in Names(payloads) <==> BytesOf(payloads, name).Some?
  {
    if payloads != [] {
      NamesAreBytes(payloads[1..], name);
      assert payloads == [payloads[0]] + payloads[1..];
    }
  }

  lemma {:induction false} DigestBytes(payloads: seq<Payload>, name: string)
    requires UniqueNames(payloads)
    ensures name in Digests(payloads) <==> BytesOf(payloads, name).Some?
    ensures name in Digests(payloads) ==> Digests(payloads)[name] == Sha256(BytesOf(payloads, name).value)
  {
    FilesMatchDigests(payloads, name);
    FilesLookup(payloads, name);
  }

  /** What is staged for a request shows the request over what readers of the disk see. */
  lemma {:induction false} StagedShows(disk: Disk, request: Request)
    requires Sound(disk) && UniqueNames(request.payloads)
    ensures Shows(StagedFor(Settle(disk), request), request, Seen(disk))
  {
    var source, files, excluded := SourceOf(Settle(disk)), request.Content(), request.Excludes();
    ReadersAgreeWithRecovery(disk);
    SoundClient(disk);
    assert source == Seen(disk);
    RenderedUnique(request.payloads, request.render, request.id);
    var staged := StagedFor(Settle(disk), request);
    assert staged == Generation(Files(files) + Kept(source, excluded), Some(Digests(files)));
    KeptMembers(source, excluded);
    hide Sound, Settle, Seen, SourceOf, StagedFor, UniqueNames, Rendered;
    forall name ensures ShowsUnder(staged, request, source, name) {
      ContentBytes(request, name);
      FilesLookup(files, name);
      KeptLookup(source, excluded, name);
      NamesAreAsked(request, name);
      LookupConcat(Files(files), Kept(source, excluded), name);
      DigestBytes(files, name);
    }
  }

  // ---- When a publication is accepted, and what a migration leaves -------------------------------------------

  /** A plain file name that the manifest does not claim, and a text with a visible character. */
  predicate Publishable(name: string, bytes: Bytes) {
    && name !in {"", ".", ".."} && '/' !in name && Lower(name) != Lower(".generation.json")
    && exists i :: 0 <= i < |bytes| && bytes[i] != 32 && !(9 <= bytes[i] <= 13) && !(28 <= bytes[i] <= 31)
  }

  /** An entry that is carried over. */
  predicate Carried(request: Request, name: string) { Asked(request, name).None? && !Dropped(request, name) }

  /** A legacy directory can be moved to this identifier and its route state adopted: the state is not there,
      or it is a plain file, not locked by anything else than a plain file, that agrees with the stable one. */
  predicate Migrates(disk: Disk, entries: seq<Entry>, legacyId: nat) {
    var state, lock := Lookup(entries, ROUTE_STATE), Lookup(entries, ROUTE_LOCK);
    && (legacyId in disk.backups ==> disk.backups[legacyId] == [])
    && (state.None? || state == Some(Symlink(true))
        || (state.value.File? && (lock.None? || lock.value.File?)
            && (disk.routeState.None? || disk.routeState == Some(state.value.bytes))))
  }

  /** Exactly when a publication that is not shown already goes through without faults, in terms of what is
      asked for and what readers see. */
  lemma {:induction false} AdmissibleExactly(disk: Disk, request: Request)
    requires Sound(disk) && disk.journal.None? && UniqueNames(request.payloads)
    requires !disk.note.NoteDirectory? && !AlreadyShown(disk, request)
    ensures Admissible(disk, request) <==>
      && |disk.generations| < 32 && request.id !in disk.generations
      && (exists name :: Asked(request, name).Some?)
      && (forall name :: Asked(request, name).Some? ==> Publishable(name, Asked(request, name).value))
      && (forall e :: e in Seen(disk) && Carried(request, e.name) ==> CopyableNode(e.node))
      && SizeOf(StagedFor(disk, request).entries) <= 32 * 1024 * 1024
      && (disk.client.Legacy? ==> Migrates(disk, disk.client.entries, request.legacyId))
  {
    hide *;
    var files, source, excluded := request.Content(), SourceOf(disk), request.Excludes();
    SeenIsSource(disk);
    ContentUnique(request);
    AdmissibleParts(disk, request);
    StagedSize(files, source, excluded);
    StagedForIs(disk, request);
    CarriedCopyable(request, source);
    PublishableAsked(request);
  }

  lemma {:induction false} SeenIsSource(disk: Disk)
    requires Sound(disk) && disk.journal.None?
    ensures SourceOf(disk) == Seen(disk)
  {
    ReadersAgreeWithRecovery(disk);
    SoundClient(disk);
  }

  lemma {:induction false} ContentUnique(request: Request)
    requires UniqueNames(request.payloads)
    ensures UniqueNames(request.Content())
  {
    RenderedUnique(request.payloads, request.render, request.id);
  }

  lemma {:induction false} StagedForIs(disk: Disk, request: Request)
    ensures StagedFor(disk, request) == Staged(request.Content(), SourceOf(disk), request.Excludes())
  {
  }

  lemma {:induction false} AdmissibleParts(disk: Disk, request: Request)
    requires !disk.note.NoteDirectory? && !AlreadyShown(disk, request)
    ensures var files := request.Content(); var kept := Kept(SourceOf(disk), request.Excludes());
      Admissible(disk, request) <==>
        && |disk.generations| < 32 && request.id !in disk.generations
        && files != [] && AllWritable(files) && !Collides(files)
        && Copyable(kept) && TotalBytes(files) + SizeOf(kept) <= 32 * 1024 * 1024
        && (disk.client.Legacy? ==> Migrates(disk, disk.client.entries, request.legacyId))
  {
    hide AlreadyShown, AllWritable, Collides, Kept, SourceOf, Copyable, SizeOf, TotalBytes, Rendered, Excluded, Lookup;
  }

  lemma {:induction false} CarriedCopyable(request: Request, source: seq<Entry>)
    ensures Copyable(Kept(source, request.Excludes()))
      <==> forall e :: e in source && Carried(request, e.name) ==> CopyableNode(e.node)
  {
    KeptMembers(source, request.Excludes());
    forall name ensures name in request.Excludes() <==> !Carried(request, name) { NamesAreAsked(request, name); }
    hide Kept, CopyableNode, Carried, Rendered, Excluded;
  }

  /** Exactly when a publication has nothing to do: the generation shown records what is asked for, rendered
      for its own path, and holds nothing stale. */
  lemma {:induction false} AlreadyExactly(disk: Disk, request: Request, shown: nat, generation: Generation)
    requires disk.client == Pointer(shown) && shown in disk.generations && disk.generations[shown] == generation
    requires UniqueNames(request.payloads) && generation.manifest.Some?
    ensures AlreadyShown(disk, request) <==>
      && (forall name :: name in generation.manifest.value <==> Asked(request.(id := shown), name).Some?)
      && (forall name :: name in generation.manifest.value && Asked(request.(id := shown), name).Some? ==>
            generation.manifest.value[name] == Sha256(Asked(request.(id := shown), name).value))
      && (forall name :: name in request.stale ==> name != MANIFEST && Lookup(generation.entries, name).None?)
  {
    var there, recorded := request.(id := shown), generation.manifest.value;
    RenderedUnique(request.payloads, request.render, shown);
    var digests := Digests(there.Content());
    forall name
      ensures name in digests <==> Asked(there, name).Some?
      ensures name in digests ==> digests[name] == Sha256(Asked(there, name).value)
    {
      ContentBytes(there, name);
      DigestBytes(there.Content(), name);
    }
    assert recorded == digests <==>
      && (forall name :: name in recorded <==> name in digests)
      && (forall name :: name in recorded && name in digests ==> recorded[name] == digests[name]);
    hide Asked, Rendered, Digests, Lookup;
  }

  /** Names and texts, one by one. */
  lemma {:induction false} PublishableAsked(request: Request)
    requires UniqueNames(request.Content())
    ensures var files := request.Content();
      && (files != [] <==> exists name :: Asked(request, name).Some?)
      && (AllWritable(files) && !Collides(files)
          <==> forall name :: Asked(request, name).Some? ==> Publishable(name, Asked(request, name).value))
  {
    var files := request.Content();
    AskedPayloads(request);
    PublishablePayloads(files);
    hide Asked, Rendered, Publishable, AllWritable, Collides, UniqueNames;
    if files != [] { assert Asked(request, files[0].name).Some?; }
    if forall name :: Asked(request, name).Some? ==> Publishable(name, Asked(request, name).value) {
      forall i | 0 <= i < |files| ensures Publishable(files[i].name, files[i].bytes) {
        assert Asked(request, files[i].name) == Some(files[i].bytes);
      }
    }
  }

  /** What is asked for are the payloads, name by name. */
  lemma {:induction false} AskedPayloads(request: Request)
    requires UniqueNames(request.Content())
    ensures var files := request.Content();
      && (forall i :: 0 <= i < |files| ==> Asked(request, files[i].name) == Some(files[i].bytes))
      && (forall name :: Asked(request, name).Some? ==>
            exists i :: 0 <= i < |files| && files[i].name == name && files[i].bytes == Asked(request, name).value)
  {
    hide Asked, Rendered, UniqueNames;
    var files := request.Content();
    forall i | 0 <= i < |files| ensures Asked(request, files[i].name) == Some(files[i].bytes) {
      ContentBytes(request, files[i].name);
      FoundAt(files, i);
    }
    forall name | Asked(request, name).Some?
      ensures exists i :: 0 <= i < |files| && files[i].name == name && files[i].bytes == Asked(request, name).value
    {
      ContentBytes(request, name);
      var i := FindBytes(files, name);
    }
  }

  lemma {:induction false} FindBytes(payloads: seq<Payload>, name: string) returns (i: nat)
    requires BytesOf(payloads, name).Some?
    ensures i < |payloads| && payloads[i].name == name && BytesOf(payloads, name) == Some(payloads[i].bytes)
  {
    if payloads[0].name == name {
      i := 0;
    } else {
      i := FindBytes(payloads[1..], name);
      i := i + 1;
    }
  }

  lemma {:induction false} PublishablePayloads(files: seq<Payload>)
    ensures AllWritable(files) && !Collides(files)
      <==> forall i :: 0 <= i < |files| ==> Publishable(files[i].name, files[i].bytes)
  {
    forall i | 0 <= i < |files|
      ensures WritablePayload(files[i]) && Lower(files[i].name) != Lower(MANIFEST)
              <==> Publishable(files[i].name, files[i].bytes)
    {
      PublishablePayload(files[i]);
    }
    hide Publishable, WritablePayload, Lower;
  }

  lemma {:induction false} PublishablePayload(payload: Payload)
    ensures WritablePayload(payload) && Lower(payload.name) != Lower(MANIFEST)
            <==> Publishable(payload.name, payload.bytes)
  {
    hide Lower;
    assert Blank(payload.bytes)
      <==> forall i :: 0 <= i < |payload.bytes| ==> BlankByte(payload.bytes[i]);
  }

  lemma {:induction false} FoundAt(payloads: seq<Payload>, i: nat)
    requires i < |payloads| && UniqueNames(payloads)
    ensures BytesOf(payloads, payloads[i].name) == Some(payloads[i].bytes)
  {
    if i > 0 { FoundAt(payloads[1..], i - 1); }
  }

  /** A generation is as large as its payloads and the entries carried over. */
  lemma {:induction false} StagedSize(files: seq<Payload>, source: seq<Entry>, excluded: set<string>)
    ensures SizeOf(Staged(files, source, excluded).entries) == TotalBytes(files) + SizeOf(Kept(source, excluded))
  {
    SizeConcat(Files(files), Kept(source, excluded));
    FilesSize(files);
  }

  lemma {:induction false} SizeConcat(a: seq<Entry>, b: seq<Entry>)
    ensures SizeOf(a + b) == SizeOf(a) + SizeOf(b)
  {
    if b == [] {
      assert a + b == a;
    } else {
      SizeConcat(a, b[..|b| - 1]);
      assert (a + b)[..|a + b| - 1] == a + b[..|b| - 1];
    }
  }

  lemma {:induction false} FilesSize(payloads: seq<Payload>)
    ensures SizeOf(Files(payloads)) == TotalBytes(payloads)
  {
    if payloads != [] {
      var n := |payloads| - 1;
      FilesSize(payloads[..n]);
      assert Files(payloads)[..|Files(payloads)| - 1] == Files(payloads[..n]);
    }
  }

  /** A migration keeps the legacy directory under its identifier, with at most the lock file added, and
      takes its route state over if that is a file. */
  lemma {:induction false} MigrationKeeps(disk: Disk, request: Request)
    requires Sound(disk) && disk.journal.None? && disk.client.Legacy? && Admissible(disk, request)
    ensures var entries := disk.client.entries; var after := PublishedDisk(disk, request);
      && request.legacyId in after.backups
      && (after.backups[request.legacyId] == entries
          || after.backups[request.legacyId] == entries + [Entry(ROUTE_LOCK, File([]))])
      && (forall id :: id in disk.backups && id != request.legacyId ==>
            id in after.backups && after.backups[id] == disk.backups[id])
      && after.routeState == match Lookup(entries, ROUTE_STATE)
                             case Some(File(bytes)) => Some(bytes)
                             case _ => disk.routeState
  {
    hide Stageable, Staged, Lookup, Sound, HasRoom;
  }

  // ---- Whole histories ---------------------------------------------------------------------------------------------

  /** What happens to a disk between two quiescent points: a recovery, or a publication that may
      have ended in a success, an exception or a kill. A rollback is a publication. */
  datatype Session = Recovery | Publication(request: Request)

  ghost predicate Happens(before: Disk, session: Session, after: Disk) {
    && Evolves(before, after)
    && match session
       case Recovery => after.generations == before.generations
         && (after.client.Pointer? ==> after.client == before.client)
       case Publication(request) =>
         UniqueNames(request.payloads) && Arrives(before, after, request.id, StagedFor(Settle(before), request))
  }

  /** Disks before, between and after successive sessions. */
  ghost predicate History(trace: seq<Disk>, sessions: seq<Session>) {
    && |trace| == |sessions| + 1 && Sound(trace[0])
    && forall k :: 0 <= k < |sessions| ==> Happens(trace[k], sessions[k], trace[k + 1])
  }

  /** Between any two points of a history everything Evolves promises holds: generations are
      immutable, storage stays bounded, legacy bytes survive, and the settled client is the old
      one or a complete generation that is newer. */
  lemma {:induction false} HistoryEvolves(trace: seq<Disk>, sessions: seq<Session>, i: nat, j: nat)
    requires History(trace, sessions) && i <= j < |trace|
    ensures Evolves(trace[i], trace[j]) && Sound(trace[i])
    decreases j, i
  {
    hide Evolves, Sound, Arrives;
    if i < j {
      HistoryEvolves(trace, sessions, i, j - 1);
      assert Happens(trace[j - 1], sessions[j - 1], trace[j - 1 + 1]);
      EvolvesTransitive(trace[i], trace[j - 1], trace[j]);
    } else if i > 0 {
      HistoryEvolves(trace, sessions, i - 1, i);
      EvolvesSound(trace[i - 1], trace[i]);
      EvolvesRefl(trace[i]);
    } else {
      EvolvesRefl(trace[i]);
    }
  }

  /** Generation id on a disk is the one a session of the history staged: it shows that session's
      payloads over what readers saw at its beginning. */
  ghost predicate StagedBy(trace: seq<Disk>, sessions: seq<Session>, k: nat, id: nat, generation: Generation)
    requires |trace| == |sessions| + 1
  {
    && k < |sessions| && sessions[k].Publication? && sessions[k].request.id == id
    && id !in trace[k].generations && Shows(generation, sessions[k].request, Seen(trace[k]))
  }

  /** A publication that moves the client shows its request over what readers saw before it. */
  lemma {:induction false} MovedShows(before: Disk, request: Request, after: Disk)
    requires Sound(before) && Happens(before, Publication(request), after)
    ensures after.client.Pointer? && after.client != before.client ==>
      after.client.generation in after.generations
      && Shows(after.generations[after.client.generation], request, Seen(before))
  {
    StagedShows(before, request);
    hide Shows, Sound, Evolves, StagedFor, Settle, Seen;
  }

  /** Whenever the client shows a generation it did not show at an earlier point, a publication in
      between staged it, from its own payloads and the operator files it found. */
  lemma {:induction false} SelectionHasSession(trace: seq<Disk>, sessions: seq<Session>, i: nat, j: nat)
    requires History(trace, sessions) && i <= j < |trace| && trace[j].client.Pointer?
             && trace[j].client != trace[i].client
    ensures trace[j].client.generation in trace[j].generations
    ensures var id := trace[j].client.generation;
      exists k :: i <= k < j && StagedBy(trace, sessions, k, id, trace[j].generations[id])
    decreases j
  {
    hide Evolves, Sound, StagedFor, Settle, Shows, Seen, UniqueNames;
    var id := trace[j].client.generation;
    HistoryEvolves(trace, sessions, j - 1, j);
    assert Happens(trace[j - 1], sessions[j - 1], trace[j - 1 + 1]);
    if trace[j].client == trace[j - 1].client {
      SelectionHasSession(trace, sessions, i, j - 1);
      EvolvesFrozen(trace[j - 1], trace[j]);
      var k :| i <= k < j - 1 && StagedBy(trace, sessions, k, id, trace[j - 1].generations[id]);
      assert StagedBy(trace, sessions, k, id, trace[j].generations[id]);
    } else {
      MovedShows(trace[j - 1], sessions[j - 1].request, trace[j]);
      assert StagedBy(trace, sessions, j - 1, id, trace[j].generations[id]);
    }
  }

  lemma {:induction false} EvolvesFrozen(before: Disk, after: Disk)
    requires Evolves(before, after)
    ensures Frozen(before, after)
  {
  }

  /** Once something has been published, a reader always gets complete content, before and after
      recovery: the old content, the old directory with its lock file, or exactly the generation a
      publication in between staged. */
  lemma {:induction false} ReadersAlwaysServed(trace: seq<Disk>, sessions: seq<Session>, i: nat, j: nat)
    requires History(trace, sessions) && i <= j < |trace| && Snapshot(trace[i]).Success?
    ensures Snapshot(trace[j]).Success?
    ensures match (Snapshot(trace[i]).value, Snapshot(trace[j]).value)
      case (before, Pinned(id, generation)) =>
        Complete(generation)
        && (before == Pinned(id, generation)
            || exists k :: i <= k < j && StagedBy(trace, sessions, k, id, generation))
      case (LegacyContent(earlier), LegacyContent(now)) => SameLegacy(now, earlier)
      case _ => false
  {
    HistoryEvolves(trace, sessions, i, j);
    ReadersAgreeWithRecovery(trace[i]);
    ReadersAgreeWithRecovery(trace[j]);
    if trace[j].client.Pointer? && trace[j].client != trace[i].client { SelectionHasSession(trace, sessions, i, j); }
    hide StagedBy, History;
  }

  /** A generation that was readable once keeps its bytes for ever, and storage stays bounded. */
  lemma {:induction false} PinnedForever(trace: seq<Disk>, sessions: seq<Session>, i: nat, j: nat, id: nat)
    requires History(trace, sessions) && i <= j < |trace| && id in trace[i].generations
    requires |trace[0].generations| <= MAX_GENERATIONS
    ensures id in trace[j].generations && trace[j].generations[id] == trace[i].generations[id]
    ensures |trace[j].generations| <= MAX_GENERATIONS
  {
    HistoryEvolves(trace, sessions, i, j);
    HistoryEvolves(trace, sessions, 0, j);
  }

  /** For every schedule of faults: a legacy directory whose route state already has its lock file,
      or that has no route state, is never altered while it stays the client. */
  lemma {:induction false} LockedLegacyIsExact(before: Disk, after: Disk)
    requires Evolves(before, after) && Settle(before).client.Legacy? && !GainsLock(Settle(before).client.entries)
    ensures Settle(after).client == Settle(before).client
      || (Settle(after).client.Pointer? && Settle(after).client.generation !in before.generations)
  {
  }

  // ---- What a failed switch leaves ---------------------------------------------------------------------------------

  lemma {:induction false} NotStrandedUnstaged(disk: Disk, files: seq<Payload>, excluded: set<string>, id: nat,
                                               legacyId: nat, budget: int)
    ensures id in disk.generations || !Stageable(files, SourceOf(disk), excluded, budget) ==>
      !StrandsLock(disk, files, excluded, id, legacyId, budget)
  {
    hide Stageable, SourceOf;
  }

  /** Recovery puts a stranded legacy directory back, with the lock file exactly if it was created. */
  lemma {:induction false} StrandedSettles(settled: Disk, journalled: Disk, files: seq<Payload>,
                                           excluded: set<string>, id: nat, legacyId: nat, budget: int)
    requires settled.client.Legacy? && journalled.client == settled.client && journalled.backups == settled.backups
    requires journalled.routeState == settled.routeState
    requires journalled.journal.Some? && journalled.journal.value.legacy == Some(legacyId)
    requires id !in settled.generations && Stageable(files, SourceOf(settled), excluded, budget)
    requires !Movable(settled, Some(legacyId))
    ensures Settle(Stranded(journalled, legacyId)).client
      == Legacy(if StrandsLock(settled, files, excluded, id, legacyId, budget)
                then WithLock(settled.client.entries) else settled.client.entries)
  {
    hide Stageable, SourceOf, WithLock;
  }

  lemma {:induction false} NothingToSettle(disk: Disk)
    ensures disk.journal.None? ==> Settle(disk) == disk
  {
  }

  lemma {:induction false} LockAdds(entries: seq<Entry>)
    ensures GainsLock(entries) ==> WithLock(entries) != entries
    ensures forall disk, request :: LeavesLock(disk, request) && disk.client == Legacy(entries) ==> GainsLock(entries)
  {
  }

  lemma {:induction false} NothingArrives(before: Disk, after: Disk, request: Request)
    requires Evolves(before, after) && after.generations == before.generations && UniqueNames(request.payloads)
    requires after.client.Pointer? ==> after.client == before.client
    ensures Happens(before, Publication(request), after)
  {
    hide Evolves;
  }

  lemma {:induction false} StagedArrives(before: Disk, after: Disk, request: Request)
    requires Evolves(before, after) && UniqueNames(request.payloads)
    requires Arrives(Settle(before), after, request.id, StagedFor(Settle(before), request))
    ensures Happens(before, Publication(request), after)
  {
    hide Evolves, Settle;
    SettledPointer(before);
  }

  /** A recovery followed by a publication happens like a publication. */
  lemma {:induction false} RecoveredThenPublished(origin: Disk, settled: Disk, request: Request, after: Disk)
    requires Evolves(origin, settled) && settled == Settle(origin) && settled.generations == origin.generations
    requires settled.client.Pointer? ==> settled.client == origin.client
    requires Happens(settled, Publication(request), after)
    ensures Happens(origin, Publication(request), after)
    ensures after.client.Pointer? && after.client != origin.client ==>
      && after.client == Pointer(request.id) && request.id in after.generations
      && after.generations[request.id] == StagedFor(settled, request)
  {
    SettledAgain(origin);
    SettledPointer(origin);
    EvolvesTransitive(origin, settled, after);
    hide Evolves, Settle, StagedFor, UniqueNames;
  }

  /** A directory where the layout note belongs excludes a journal, so there is nothing to settle. */
  lemma {:induction false} SettledNote(disk: Disk)
    requires Sound(disk) && disk.note.NoteDirectory?
    ensures Settle(disk) == disk
  {
  }

  /** Settling neither makes nor moves a pointer. */
  lemma {:induction false} SettledPointer(disk: Disk)
    ensures Settle(disk).client.Pointer? <==> disk.client.Pointer?
    ensures disk.client.Pointer? ==> Settle(disk).client == disk.client
    ensures Settle(disk).generations == disk.generations
  {
  }

  class Publisher {
    var disk: Disk
    var faults: seq<Fault>
    var budget: int

    constructor (start: Disk, schedule: seq<Fault>)
      ensures disk == start && faults == schedule
    {
      disk, faults, budget := start, schedule, 0;
    }

    /** The gap between two atomic steps. */
    method Boundary() returns (r: Attempt)
      modifies `faults
      ensures r.Failure? ==> OnlyInjected(r.error)
      ensures Quiet(old(faults)) ==> r.Success? && Quiet(faults)
    {
      if faults == [] { return DONE; }
      var fault := faults[0];
      faults := faults[1..];
      match fault {
        case Go => r := DONE;
        case Interrupt => r := Failure(Raised(Injected));
        case Kill => r := Failure(Killed);
      }
    }

    method Finish() returns (r: Attempt)
      modifies `disk, `faults
      ensures disk.note == old(disk).note || disk.note == NoteWritten
      ensures disk == old(disk).(note := disk.note, journal := disk.journal)
      ensures disk.journal == old(disk).journal || (disk.journal.None? && disk.note == NoteWritten)
      ensures r.Success? ==> disk.journal.None?
      ensures !old(disk).note.NoteDirectory? && r.Failure? ==> OnlyInjected(r.error)
      ensures !old(disk).note.NoteDirectory? && Quiet(old(faults)) ==> r.Success? && Quiet(faults)
    {
      var _ :- Boundary();
      if disk.note.NoteDirectory? { return Failure(Raised(NoteIsDirectory)); }
      disk := disk.(note := NoteWritten);
      var _ :- Boundary();
      disk := disk.(journal := None);
      r := Boundary();
    }

    /** recover_locked: from every sound disk it settles, and no error of its own is reachable. */
    method RecoverLocked() returns (r: Attempt)
      modifies this
      ensures Sound(old(disk)) ==> Evolves(old(disk), disk) && Settle(disk) == Settle(old(disk))
      ensures Sound(old(disk)) && r.Success? ==> disk == Settle(old(disk)) && disk.journal.None?
      ensures Sound(old(disk)) && r.Failure? ==> OnlyInjected(r.error)
      ensures Sound(old(disk)) && Quiet(old(faults)) ==> r.Success? && Quiet(faults)
      ensures disk.generations == old(disk).generations && (disk.client.Pointer? ==> disk.client == old(disk).client)
      ensures budget == old(budget)
    {
      hide Complete, UniqueNames, SameLegacy, Quiet;
      if disk.journal.None? { return DONE; }
      var journal := disk.journal.value;
      if disk.client.Pointer? {
        var selected := disk.client.generation;
        if selected != journal.target && Some(selected) != journal.previous {
          return Failure(Raised(ForeignGeneration));
        }
        if !Selects(disk, selected) { return Failure(Raised(IncompleteGeneration)); }
        r := Finish();
        return;
      }
      if disk.client.Missing? && journal.legacy.Some? && journal.legacy.value in disk.backups {
        var _ :- Boundary();
        ghost var before := disk;
        disk := disk.(client := Legacy(disk.backups[journal.legacy.value]),
                      backups := disk.backups - {journal.legacy.value});
        RestoreKeepsLegacy(before, journal.legacy.value);
        var _ :- Boundary();
      }
      if disk.client.StrayFile? { return Failure(Raised(UnexpectedFile)); }
      if disk.client.Missing? && journal.legacy.Some? { return Failure(Raised(BackupMissing)); }
      var _ :- Boundary();
      disk := disk.(journal := None);
      r := Boundary();
    }

    /** One entry of _copy_operator. */
    method CopyEntry(entry: Entry) returns (r: Attempt, node: Node)
      requires budget >= 0
      modifies `faults, `budget
      ensures r.Success? ==> node == entry.node && CopyableNode(node)
                             && budget == old(budget) - SizeOfNode(node) && budget >= 0
      ensures Quiet(old(faults)) ==>
        Quiet(faults) && (r.Success? <==> CopyableNode(entry.node) && SizeOfNode(entry.node) <= old(budget))
      ensures r.Failure? ==> CopyError(r.error)
      decreases entry.node, 0
    {
      node := entry.node;
      match entry.node {
        case Symlink(_) => return Failure(Raised(OperatorLink)), node;
        case Special => return Failure(Raised(OperatorSpecial)), node;
        case Directory(inner) =>
          r := Boundary();
          if r.Failure? { return; }
          var within: seq<Entry>;
          KeptAll(inner);
          r, within := CopyOperator(inner, {});
          node := Directory(within);
        case File(bytes) =>
          budget := budget - |bytes|;
          if budget < 0 { return Failure(Raised(OperatorTooLarge)), node; }
          r := Boundary();
      }
    }

    /** _copy_operator: copies every entry that is not excluded, drawing on the shared budget. */
    method CopyOperator(source: seq<Entry>, excluded: set<string>) returns (r: Attempt, copied: seq<Entry>)
      requires budget >= 0
      modifies `faults, `budget
      ensures r.Success? ==> copied == Kept(source, excluded) && Copyable(copied)
                             && budget == old(budget) - SizeOf(copied) && budget >= 0
      ensures Quiet(old(faults)) ==>
        Quiet(faults) && (r.Success? <==>
          Copyable(Kept(source, excluded)) && SizeOf(Kept(source, excluded)) <= old(budget))
      ensures r.Failure? ==> CopyError(r.error)
      decreases source, 1
    {
      hide Quiet, CopyableNode, SizeOf, SizeOfNode, Kept;
      KeptNothing(source, excluded);
      copied := [];
      var i := 0;
      while i < |source|
        invariant 0 <= i <= |source|
        invariant copied == Kept(source[..i], excluded) && Copyable(copied)
        invariant budget == old(budget) - SizeOf(copied) && budget >= 0
        invariant Quiet(old(faults)) ==> Quiet(faults)
      {
        var entry := source[i];
        KeptSplits(source, excluded, i);
        if entry.name !in excluded {
          KeptContains(source, excluded, i);
          SizeAppended(copied, entry);
          var node;
          r, node := CopyEntry(entry);
          copied := copied + [Entry(entry.name, node)];
          if r.Failure? { return; }
        }
        i := i + 1;
      }
      assert source[..i] == source;
      r := Boundary();
    }

    /** Writes the payloads into the new directory, in order. */
    method WriteFiles(id: nat, payloads: seq<Payload>) returns (r: Attempt)
      requires disk.generations.Keys >= {id} && disk.generations[id] == Generation([], None)
      modifies `disk, `faults
      ensures id in disk.generations
              && disk == old(disk).(generations := old(disk).generations[id := disk.generations[id]])
      ensures r.Success? ==> disk.generations[id] == Generation(Files(payloads), None) && AllWritable(payloads)
      ensures Quiet(old(faults)) ==> Quiet(faults) && (r.Success? <==> AllWritable(payloads))
      ensures r.Failure? ==> StageError(r.error)
    {
      hide Quiet;
      var i := 0;
      while i < |payloads|
        invariant 0 <= i <= |payloads|
        invariant disk == old(disk).(generations := old(disk).generations[id := Generation(Files(payloads[..i]), None)])
        invariant forall j :: 0 <= j < i ==> WritablePayload(payloads[j])
        invariant Quiet(old(faults)) ==> Quiet(faults)
      {
        if !ValidName(payloads[i].name) { return Failure(Raised(InvalidName)); }
        if Blank(payloads[i].bytes) { return Failure(Raised(EmptyArtifact)); }
        var _ :- Boundary();
        assert payloads[..i + 1][..i] == payloads[..i];
        disk := disk.(generations := disk.generations[id := Generation(Files(payloads[..i + 1]), None)]);
        i := i + 1;
      }
      assert payloads[..i] == payloads;
      return DONE;
    }

    /** Creates the generation, writes the payloads, copies the operator files and adds the
        manifest. Nothing but the new directory changes, whatever happens. */
    method Stage(id: nat, payloads: seq<Payload>, source: seq<Entry>, excluded: set<string>) returns (r: Attempt)
      requires budget >= 0 && UniqueNames(payloads)
      modifies this
      ensures OnlyAdds(old(disk), disk, id)
      ensures r.Success? ==> id !in old(disk).generations && id in disk.generations
                             && disk.generations[id] == Staged(payloads, source, excluded)
                             && Complete(disk.generations[id])
                             && Stageable(payloads, source, excluded, old(budget))
      ensures Quiet(old(faults)) ==>
        Quiet(faults) && (r.Success? <==>
          id !in old(disk).generations && Stageable(payloads, source, excluded, old(budget)))
      ensures r.Failure? ==> StageError(r.error)
    {
      hide Quiet, Complete, UniqueNames, WritablePayload, Files, Digests, Kept, SizeOf, Copyable;
      if id in disk.generations { return Failure(Raised(DirectoryExists)); }
      disk := disk.(generations := disk.generations[id := Generation([], None)]);
      var _ :- WriteFiles(id, payloads);
      var copied;
      r, copied := CopyOperator(source, excluded);
      disk := disk.(generations := disk.generations[id := Generation(Files(payloads) + copied, None)]);
      if r.Failure? { return; }
      var _ :- Boundary();
      var staged := Generation(Files(payloads) + copied, Some(Digests(payloads)));
      disk := disk.(generations := disk.generations[id := staged]);
      StagedComplete(payloads, copied);
      if !Complete(disk.generations[id]) { return Failure(Raised(IncompleteGeneration)); }
      r := Boundary();
    }

    /** _legacy_route_state: takes the route ownership state over from the moved directory. */
    method AdoptRouteState(backup: nat) returns (r: Attempt)
      requires backup in disk.backups
      modifies `disk, `faults
      ensures disk == old(disk).(backups := disk.backups, routeState := disk.routeState)
      ensures disk.backups == old(disk).backups
              || (GainsLock(old(disk).backups[backup])
                  && disk.backups == old(disk).backups[backup := WithLock(old(disk).backups[backup])])
      ensures old(disk).routeState.Some? ==> disk.routeState == old(disk).routeState
      ensures r.Success? ==>
        disk == Adopted(old(disk), backup) && RouteProblem(old(disk).backups[backup], old(disk).routeState).None?
      ensures Quiet(old(faults)) ==>
        Quiet(faults) && (r.Success? <==> RouteProblem(old(disk).backups[backup], old(disk).routeState).None?)
      ensures Quiet(old(faults)) && r.Failure? ==>
        r.error.Raised? && disk == old(disk).(backups := old(disk).backups[backup := Locked(old(disk).backups[backup])])
      ensures r.Failure? ==> SwitchProblem(r.error)
    {
      var entries := disk.backups[backup];
      var state := Lookup(entries, ROUTE_STATE);
      var lock := Lookup(entries, ROUTE_LOCK);
      if !PathExists(state) { return DONE; }
      if !state.value.File? { return Failure(Raised(RouteStateUnsafe)); }
      if lock.Some? && !lock.value.File? { return Failure(Raised(RouteLockUnsafe)); }
      var _ :- Boundary();
      disk := disk.(backups := disk.backups[backup := WithLock(entries)]);
      assert lock.Some? ==> disk.backups == old(disk).backups;
      var _ :- Boundary();
      if disk.routeState.Some? && disk.routeState.value != state.value.bytes {
        return Failure(Raised(RouteStateConflict));
      }
      disk := disk.(routeState := Some(state.value.bytes));
      r := Boundary();
    }

    /** Moves a legacy directory aside and adopts its route state. */
    method MoveAside(backup: nat, ghost origin: Disk) returns (r: Attempt)
      requires Evolves(origin, disk) && disk.client.Legacy?
      requires disk.journal.Some? && disk.journal.value.legacy == Some(backup)
      modifies `disk, `faults
      ensures Evolves(origin, disk) && disk.generations == old(disk).generations && !disk.client.Pointer?
      ensures disk.journal == old(disk).journal && disk.note == old(disk).note
      ensures r.Success? ==>
        && disk == Adopted(old(disk).(client := Missing,
                                      backups := old(disk).backups[backup := old(disk).client.entries]), backup)
        && Movable(old(disk), Some(backup))
      ensures Quiet(old(faults)) ==> Quiet(faults) && (r.Success? <==> Movable(old(disk), Some(backup)))
      ensures Quiet(old(faults)) && r.Failure? ==> r.error.Raised? && disk == Stranded(old(disk), backup)
      ensures r.Failure? ==> SwitchProblem(r.error)
    {
      hide Quiet, Evolves, RouteProblem, Settle, Locked, Lookup;
      var moved := disk.client.entries;
      if backup in disk.backups && disk.backups[backup] != [] { return Failure(Raised(DirectoryExists)); }
      MovedAside(origin, disk, backup);
      disk := disk.(client := Missing, backups := disk.backups[backup := moved]);
      var _ :- Boundary();
      ghost var before := disk;
      r := AdoptRouteState(backup);
      RouteAdopted(origin, before, disk, backup);
      assert Quiet(old(faults)) && r.Failure? ==> disk.backups == before.backups[backup := Locked(moved)];
    }

    /** The journalled part of a publication: move a legacy directory away, adopt its route
        state, replace the pointer, finish. Every crash point is a sound evolution that shows the
        old client or the journalled target. */
    method Switch(id: nat, legacy: Option<nat>, ghost origin: Disk) returns (r: Attempt)
      requires Evolves(origin, disk) && id !in origin.generations
      requires disk.journal.Some? && disk.journal.value.target == id && disk.journal.value.legacy == legacy
      requires legacy.Some? <==> disk.client.Legacy?
      modifies `disk, `faults, `budget
      ensures Evolves(origin, disk)
      ensures r.Success? ==> disk == Activated(old(disk), id, legacy) && Movable(old(disk), legacy)
      ensures disk.generations == old(disk).generations
      ensures disk.client.Pointer? ==> disk.client == old(disk).client || disk.client == Pointer(id)
      ensures Quiet(old(faults)) ==> Quiet(faults) && (r.Success? <==> Movable(old(disk), legacy))
      ensures Quiet(old(faults)) && r.Failure? ==>
        legacy.Some? && r.error.Raised? && disk == Stranded(old(disk), legacy.value)
      ensures r.Failure? ==> SwitchProblem(r.error)
    {
      assert !disk.note.NoteDirectory?;
      hide Quiet, Evolves, RouteProblem, Settle, Stranded, Adopted;
      var _ :- Boundary();
      if legacy.Some? {
        r := MoveAside(legacy.value, origin);
        if r.Failure? { return; }
      }
      var _ :- Boundary();
      PointerSet(origin, disk, id);
      disk := disk.(client := Pointer(id));
      var _ :- Boundary();
      ghost var before := disk;
      r := Finish();
      Finished(origin, before, disk);
    }

    /** After an exception the recovery is attempted once; it may be interrupted in turn. */
    method GiveUp(exit: Exit, ghost origin: Disk) returns (last: Exit)
      requires Evolves(origin, disk)
      modifies this
      ensures Evolves(origin, disk) && disk.generations == old(disk).generations
      ensures disk.client.Pointer? ==> disk.client == old(disk).client
      ensures last == exit || OnlyInjected(last)
      ensures Quiet(old(faults)) ==> Quiet(faults) && (exit.Raised? ==> disk == Settle(old(disk)))
    {
      if exit.Killed? { return exit; }
      ghost var before := disk;
      EvolvesSound(origin, before);
      hide Evolves, Quiet, Sound, Settle;
      var recovered := RecoverLocked();
      EvolvesTransitive(origin, before, disk);
      last := if recovered.Failure? then recovered.error else exit;
    }

    /** The second part of publish_locked: the journal, the switch, and the recovery after an exception. */
    method SwitchNew(journal: Journal, ghost origin: Disk) returns (r: Attempt)
      requires Evolves(origin, disk.(journal := Some(journal))) && journal.target !in origin.generations
      requires journal.legacy.Some? <==> disk.client.Legacy?
      modifies this
      ensures Evolves(origin, disk) && disk.generations == old(disk).generations
      ensures disk.client.Pointer? ==> disk.client == old(disk).client || disk.client == Pointer(journal.target)
      ensures var journalled := old(disk).(journal := Some(journal));
        && (r.Success? ==>
              disk == Activated(journalled, journal.target, journal.legacy) && Movable(journalled, journal.legacy))
        && (Quiet(old(faults)) ==> Quiet(faults) && (r.Success? <==> Movable(journalled, journal.legacy)))
        && (Quiet(old(faults)) && r.Failure? ==>
              journal.legacy.Some? && disk == Settle(Stranded(journalled, journal.legacy.value)))
      ensures r.Failure? ==> SwitchProblem(r.error) || OnlyInjected(r.error)
    {
      hide Evolves, Quiet, Settle, Activated, Movable, Stranded, SwitchProblem, OnlyInjected;
      disk := disk.(journal := Some(journal));
      r := Switch(journal.target, journal.legacy, origin);
      if r.Failure? {
        var last := GiveUp(r.error, origin);
        r := Failure(last);
      }
    }

    /** The rest of publish_locked once a new generation is needed: stage it, journal it, switch to
        it, and recover when the switch raises. */
    method PublishNew(files: seq<Payload>, excluded: set<string>, id: nat, legacyId: nat, ghost origin: Disk)
        returns (r: Result<nat, Exit>)
      requires Evolves(origin, disk) && disk.journal.None? && !disk.note.NoteDirectory?
      requires disk.generations == origin.generations && |disk.generations| < MAX_GENERATIONS
      requires budget >= 0 && UniqueNames(files)
      modifies this
      ensures Evolves(origin, disk)
      ensures Arrives(old(disk), disk, id, Staged(files, SourceOf(old(disk)), excluded))
      ensures r.Success? ==> r.value == id && NewAdmissible(old(disk), files, excluded, id, legacyId, old(budget))
                             && disk == NewDisk(old(disk), files, excluded, id, legacyId)
      ensures Quiet(old(faults)) ==>
        Quiet(faults) && (r.Success? <==> NewAdmissible(old(disk), files, excluded, id, legacyId, old(budget)))
      ensures Quiet(old(faults)) && r.Failure? && old(disk).client.Legacy? ==>
        disk.client == Legacy(if StrandsLock(old(disk), files, excluded, id, legacyId, old(budget))
                              then WithLock(old(disk).client.entries) else old(disk).client.entries)
      ensures r.Failure? && r.error.Raised? ==> r.error.error !in {ForeignGeneration, UnexpectedFile, BackupMissing}
    {
      assert Sound(disk);
      assert !disk.client.StrayFile?;
      hide Quiet, Complete, UniqueNames, RouteProblem, Evolves, Sound, Settle, Stageable, SourceOf,
        Activated, Movable, Staged, StageError, SwitchProblem, StrandsLock, Stranded;
      ghost var settled := disk;
      var previous := if disk.client.Pointer? then Some(disk.client.generation) else None;
      var legacy := if disk.client.Legacy? then Some(legacyId) else None;
      ghost var room := budget;
      var staged := Stage(id, files, SourceOf(disk), excluded);
      StagedEvolves(origin, settled, disk, id);
      ForeignToStaging();
      if staged.Failure? {
        NotStrandedUnstaged(settled, files, excluded, id, legacyId, room);
        return Failure(staged.error);
      }
      JournalledEvolves(origin, disk, Journal(id, previous, legacy));
      JournalIrrelevant(settled, disk, Some(Journal(id, previous, legacy)), id, legacy);
      ghost var journalled := disk.(journal := Some(Journal(id, previous, legacy)));
      var switched := SwitchNew(Journal(id, previous, legacy), origin);
      if switched.Success? { return Success(id); }
      if legacy.Some? && !Movable(settled, legacy) {
        StrandedSettles(settled, journalled, files, excluded, id, legacyId, room);
      }
      return Failure(switched.error);
    }

    /** The checks of publish_locked on a settled disk. None means that a new generation is needed. */
    method Examine(request: Request) returns (r: Result<Option<nat>, Exit>)
      requires disk.client.Pointer? ==> Selects(disk, disk.client.generation)
      requires !disk.client.StrayFile?
      modifies `budget
      ensures match r
        case Success(Some(id)) => disk.client == Pointer(id) && AlreadyShown(disk, request)
        case Success(None) => !AlreadyShown(disk, request) && HasRoom(disk, request) && budget == request.Budget()
        case Failure(exit) =>
          && !AlreadyShown(disk, request) && !HasRoom(disk, request)
          && (exit.Raised? ==> exit.error !in {ForeignGeneration, UnexpectedFile, BackupMissing})
    {
      hide Complete, Collides, Unchanged, Rendered, Excluded, TotalBytes;
      if disk.client.Pointer? {
        var previous := disk.client.generation;
        if previous !in disk.generations || !Complete(disk.generations[previous]) {
          return Failure(Raised(IncompleteGeneration));
        }
        if Unchanged(disk.generations[previous], Rendered(request.payloads, request.render, previous), request.stale) {
          return Success(Some(previous));
        }
      } else if disk.client.StrayFile? {
        return Failure(Raised(NotADirectory));
      }
      if |disk.generations| >= MAX_GENERATIONS { return Failure(Raised(RetentionLimit)); }
      budget := request.Budget();
      if budget < 0 { return Failure(Raised(PayloadTooLarge)); }
      if Collides(request.Content()) { return Failure(Raised(NameCollision)); }
      r := Success(None);
    }

    /** The first part of publish_locked: recovery and the checks before a generation is added.
        None means that a new generation is needed. */
    method Begin(request: Request) returns (r: Result<Option<nat>, Exit>)
      requires Sound(disk) && UniqueNames(request.payloads)
      modifies this
      ensures Evolves(old(disk), disk) && disk.generations == old(disk).generations
      ensures disk.client.Pointer? ==> disk.client == old(disk).client
      ensures r.Success? ==> disk == Settle(old(disk)) && !disk.note.NoteDirectory?
      ensures r.Success? && r.value.Some? ==> disk.client == Pointer(r.value.value) && AlreadyShown(disk, request)
      ensures r.Success? && r.value.None? ==>
        !AlreadyShown(disk, request) && HasRoom(disk, request) && budget == request.Budget() && Sound(disk)
      ensures Quiet(old(faults)) ==> Quiet(faults) && disk == Settle(old(disk))
      ensures Quiet(old(faults)) && r.Failure? ==>
        disk.note.NoteDirectory? || (!AlreadyShown(disk, request) && !HasRoom(disk, request))
      ensures r.Failure? && r.error.Raised? ==> r.error.error !in {ForeignGeneration, UnexpectedFile, BackupMissing}
    {
      EvolvesRefl(disk);
      SettleKeeps(disk);
      SoundClient(disk);
      hide Quiet, Complete, UniqueNames, Evolves, Settle, AlreadyShown, HasRoom, TotalBytes;
      ghost var origin := disk;
      if disk.note.NoteDirectory? {
        SettledNote(disk);
        return Failure(Raised(NoteIsDirectory));
      }
      hide Sound;
      var _ :- RecoverLocked();
      EvolvesSound(origin, disk);
      r := Examine(request);
    }

    /** publish_locked. Whatever the fault schedule, the disk stays sound, evolves as Evolves allows,
        and shows the old client or exactly the generation this request stages; a success leaves
        exactly PublishedDisk; without faults success is equivalent to Admissible, and a failure
        gives a legacy directory back unchanged unless it leaves the lock file. The recovery errors
        of a foreign generation, an unexpected file and a missing backup never occur. */
    method PublishLocked(request: Request) returns (r: Result<nat, Exit>)
      requires Sound(disk) && UniqueNames(request.payloads)
      modifies this
      ensures Happens(old(disk), Publication(request), disk)
      ensures disk.client.Pointer? && disk.client != old(disk).client ==>
        disk.client.generation in disk.generations
        && Shows(disk.generations[disk.client.generation], request, Seen(old(disk)))
      ensures r.Success? ==>
        && Admissible(Settle(old(disk)), request) && disk == PublishedDisk(Settle(old(disk)), request)
        && disk.client == Pointer(r.value)
      ensures Quiet(old(faults)) ==> Quiet(faults) && (r.Success? <==> Admissible(Settle(old(disk)), request))
      ensures Quiet(old(faults)) && r.Failure? ==>
        match Settle(old(disk)).client
        case Legacy(entries) =>
          disk.client == Legacy(if LeavesLock(Settle(old(disk)), request) then WithLock(entries) else entries)
        case other => true
      ensures r.Failure? && r.error.Raised? ==> r.error.error !in {ForeignGeneration, UnexpectedFile, BackupMissing}
    {
      ghost var origin := disk;
      SettleKeeps(disk);
      NewClient(Settle(disk), request.Content(), request.Excludes(), request.id, request.legacyId);
      RenderedUnique(request.payloads, request.render, request.id);
      hide Quiet, Evolves, Settle, NewAdmissible, AlreadyShown, HasRoom, NewDisk, Sound, UniqueNames, StrandsLock,
        Rendered, Excluded, TotalBytes, Staged, SourceOf, Happens, Arrives, Collides, Shows, Seen;
      var begun := Begin(request);
      NothingArrives(origin, disk, request);
      MovedShows(origin, request, disk);
      if begun.Failure? { return Failure(begun.error); }
      if begun.value.Some? { return Success(begun.value.value); }
      r := PublishNew(request.Content(), request.Excludes(), request.id, request.legacyId, origin);
      StagedArrives(origin, disk, request);
      MovedShows(origin, request, disk);
    }

    /** The payloads recorded in a complete generation, in some order. */
    method ReadPayloads(generation: Generation) returns (payloads: seq<Payload>)
      requires Complete(generation)
      ensures UniqueNames(payloads) && Digests(payloads) == generation.manifest.value
    {
      payloads := [];
      var remaining := generation.manifest.value.Keys;
      assert Digests(payloads) == generation.manifest.value - remaining;
      hide Digests, Complete;
      while remaining != {}
        invariant remaining <= generation.manifest.value.Keys && UniqueNames(payloads)
        invariant Digests(payloads) == generation.manifest.value - remaining
        invariant forall i :: 0 <= i < |payloads| ==>
                    payloads[i].name in generation.manifest.value && payloads[i].name !in remaining
        decreases remaining
      {
        var name :| name in remaining;
        ListedFile(generation, name);
        var next := Payload(name, Lookup(generation.entries, name).value.bytes);
        OneMoreDigest(payloads, next, generation.manifest.value, remaining);
        payloads := payloads + [next];
        remaining := remaining - {name};
      }
    }

    /** rollback: publishes the artifacts of an old generation again, from the current operator
        files; only the instructions may differ, by the path they mention. */
    method Rollback(generation: nat, stale: seq<string>, reword: (nat, Bytes) -> Bytes, id: nat, legacyId: nat)
        returns (r: Result<nat, Exit>, ghost request: Request)
      requires Sound(disk)
      modifies this
      ensures Happens(old(disk), Publication(request), disk) && request.id == id
      ensures disk.client.Pointer? && disk.client != old(disk).client ==>
        && disk.client == Pointer(id) && id in disk.generations && generation in old(disk).generations
        && SameArtifacts(disk.generations[id], old(disk).generations[generation])
      ensures r.Success? ==>
        && generation in old(disk).generations && disk.client == Pointer(r.value) && disk.journal.None?
        && r.value in disk.generations && SameArtifacts(disk.generations[r.value], old(disk).generations[generation])
    {
      request := Request([], [], None, id, legacyId);
      assert UniqueNames(request.payloads);
      EvolvesRefl(disk);
      SettleKeeps(disk);
      SettledAgain(disk);
      NothingArrives(disk, disk, request);
      hide Happens, Evolves, Settle, UniqueNames, Sound, PublishedDisk, Admissible, Complete, SameArtifacts,
           StagedFor, Shows, Seen;
      ghost var origin := disk;
      var recovered := RecoverLocked();
      NothingArrives(origin, disk, request);
      if recovered.Failure? { return Failure(recovered.error), request; }
      if generation !in disk.generations || !Complete(disk.generations[generation]) {
        return Failure(Raised(IncompleteGeneration)), request;
      }
      var chosen := disk.generations[generation];
      var payloads := ReadPayloads(chosen);
      var render: Option<nat -> Bytes> := None;
      if INSTRUCTIONS in chosen.manifest.value {
        var text := Lookup(chosen.entries, INSTRUCTIONS);
        if text.Some? && text.value.File? { render := Some((selected: nat) => reword(selected, text.value.bytes)); }
      }
      ghost var settled := disk;
      EvolvesSound(origin, disk);
      var again := Request(payloads, stale, render, id, legacyId);
      request := again;
      r := PublishLocked(again);
      RecoveredThenPublished(origin, settled, again, disk);
      StagedArtifacts(settled, chosen, request);
      if r.Success? { RepublishedArtifacts(settled, chosen, request); }
    }

    /** Publishing over a legacy directory without faults gives the directory back unchanged when
        it fails, exactly unless the failure leaves the lock file. */
    method FailedMigration(request: Request, entries: seq<Entry>) returns (restored: bool)
      requires Sound(disk) && disk.journal.None? && disk.client == Legacy(entries)
      requires UniqueNames(request.payloads) && Quiet(faults) && !Admissible(disk, request)
      modifies this
      ensures restored == (disk.client == Legacy(entries))
      ensures restored <==> !LeavesLock(old(disk), request)
      ensures !restored ==> disk.client == Legacy(WithLock(entries))
    {
      NothingToSettle(disk);
      LockAdds(entries);
      hide Admissible, LeavesLock, Settle, Sound, UniqueNames, Quiet, Happens, WithLock, GainsLock;
      var r := PublishLocked(request);
      restored := disk.client == Legacy(entries);
    }
  }

  predicate CopyError(exit: Exit) {
    exit == Killed || exit.error in {Injected, OperatorLink, OperatorSpecial, OperatorTooLarge}
  }

  lemma {:induction false} KeptAll(entries: seq<Entry>)
    ensures Kept(entries, {}) == entries
  {
    if entries != [] { KeptAll(entries[..|entries| - 1]); }
  }

  lemma {:induction false} KeptNothing(source: seq<Entry>, excluded: set<string>)
    ensures Kept(source[..0], excluded) == [] && SizeOf([]) == 0
  {
  }

  lemma {:induction false} KeptSplits(source: seq<Entry>, excluded: set<string>, i: nat)
    requires i < |source|
    ensures Kept(source[..i + 1], excluded)
      == Kept(source[..i], excluded) + (if source[i].name in excluded then [] else [source[i]])
  {
    assert source[..i + 1][..i] == source[..i];
  }

  lemma {:induction false} KeptContains(source: seq<Entry>, excluded: set<string>, i: nat)
    requires i < |source| && source[i].name !in excluded
    ensures source[i] in Kept(source, excluded)
    ensures SizeOf(Kept(source[..i], excluded)) + SizeOfNode(source[i].node) <= SizeOf(Kept(source, excluded))
  {
    var n := |source| - 1;
    if i < n {
      KeptContains(source[..n], excluded, i);
      assert source[..n][..i] == source[..i];
      SizeAppended(Kept(source[..n], excluded), source[n]);
      assert Kept(source[..n], excluded) + [] == Kept(source[..n], excluded);
    } else {
      SizeAppended(Kept(source[..n], excluded), source[n]);
    }
  }

  lemma {:induction false} SizeAppended(entries: seq<Entry>, entry: Entry)
    ensures SizeOf(entries + [entry]) == SizeOf(entries) + SizeOfNode(entry.node)
  {
    assert (entries + [entry])[..|entries|] == entries;
  }
}
