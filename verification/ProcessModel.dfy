/** The process manager's state and its steps, between which ProcessedUntil may interleave. */
module ProcessModel {
  import opened Words
  import opened Options
  import opened Lpm

  type PID = nat
  type FileID = nat
  type KTime = int
  type Attacher = nat
  type Instance = nat

  /** On-disk identity of a mapped file. */
  datatype OID = OID(device: nat, inode: nat)

  /** A file and the part of its virtual address space that is mapped. */
  datatype Frame = Frame(file: FileID, start: Word, end: Word)

  datatype Mapping = Mapping(vaddr: Word, length: Word, oid: OID, frame: Frame)
  {
    /** The end address as processNewMapping computes it. */
    function End(): Word { Wrap(vaddr + frame.end - frame.start) }
    predicate Contains(a: int) { vaddr <= a < vaddr + length }
  }

  /** A value of pid_page_to_mapping_info. */
  datatype Entry = Entry(file: FileID, bias: Word)

  const DUMMY := Prefix(0, 64)

  function EntryOf(m: Mapping): Entry {
    Entry(m.frame.file, Wrap(m.vaddr - m.frame.start))
  }

  function PrefixList(m: Mapping): seq<Prefix> {
    if m.End() <= m.vaddr then [] else PrefixesOf(Blocks(m.vaddr, m.End()))
  }

  // ----- What the outside delivers -----

  datatype Attach = NoInterpreter | AttachFails | Attaches

  /** What newFrameMapping finds: nothing usable, or a file whose reference it takes. */
  datatype Elf = Unusable | Loaded(file: FileID, start: Word, attach: Attach, probes: set<Attacher>)

  /** One line of /proc/PID/maps; needed when it is executable and file-backed. */
  datatype RawMapping = RawMapping(vaddr: Word, length: Word, oid: OID, needed: bool, elf: Elf)

  // ----- State -----

  type Table = map<(PID, Prefix), Entry>

  datatype Manager = Manager(
    tracing: bool,
    infos: map<PID, seq<Mapping>>,
    exits: map<PID, KTime>,
    interps: map<PID, map<OID, Instance>>,
    probes: map<PID, set<Attacher>>,
    size: nat,
    table: Table,
    refs: multiset<FileID>)

  /** What has happened so far: instances and probe attachments by pid life, their detachments,
      and references a failed maps read left behind. */
  datatype History = History(
    attached: seq<(PID, OID)>,
    detached: multiset<Instance>,
    lives: seq<PID>,
    life: map<PID, nat>,
    probed: set<(nat, Attacher)>,
    unprobed: multiset<(nat, Attacher)>,
    leaked: multiset<FileID>)

  datatype Phase = Reading | Pruned | Installed

  /** A synchronization in progress: keys are the start addresses of old mappings not seen again. */
  datatype Sync = Sync(pid: PID, prior: seq<Mapping>, keys: set<Word>, kept: seq<Mapping>, adds: seq<Mapping>,
                       mappings: seq<Mapping>, valid: set<OID>, phase: Phase)

  datatype World = World(m: Manager, h: History, sync: Option<Sync>)

  // ----- Pieces of the steps -----

  function Keys(pid: PID, ms: seq<Mapping>): set<(PID, Prefix)> {
    set m, p | m in ms && p in PrefixList(m) :: (pid, p)
  }

  function Files(ms: seq<Mapping>): multiset<FileID> {
    if ms == [] then multiset{} else Files(ms[..|ms| - 1]) + multiset{ms[|ms| - 1].frame.file}
  }

  function Filter(ms: seq<Mapping>, keys: set<Word>): seq<Mapping> {
    if ms == [] then [] else
    var init, last := Filter(ms[..|ms| - 1], keys), ms[|ms| - 1];
    if last.vaddr in keys then init + [last] else init
  }

  /** The references processRemovedMapping gives back: none for a mapping without prefixes. */
  function Releasable(ms: seq<Mapping>): seq<Mapping> {
    if ms == [] then [] else
    var init, last := Releasable(ms[..|ms| - 1]), ms[|ms| - 1];
    if last.End() <= last.vaddr then init else init + [last]
  }

  /** Deletes the prefixes of ms, releases their files and lowers the size by what was deleted. */
  function Remove(m: Manager, pid: PID, ms: seq<Mapping>, extra: set<(PID, Prefix)>): Manager {
    var keys := Keys(pid, ms) + extra;
    var deleted := |m.table.Keys * keys|;
    m.(table := m.table - keys, refs := m.refs - Files(Releasable(ms)),
       size := if m.size < deleted then 0 else m.size - deleted)
  }

  /** Inserts prefixes until the first update that fails. */
  function InstallPrefixes(table: Table, pid: PID, ps: seq<Prefix>, e: Entry, ok: Prefix -> bool): (Table, nat)
    decreases |ps|
  {
    if ps == [] || !ok(ps[0]) then (table, 0) else
    var r := InstallPrefixes(table[(pid, ps[0]) := e], pid, ps[1..], e, ok);
    (r.0, r.1 + 1)
  }

  function InstallAll(table: Table, pid: PID, ms: seq<Mapping>, ok: Prefix -> bool): (Table, nat) {
    if ms == [] then (table, 0) else
    var init := InstallAll(table, pid, ms[..|ms| - 1], ok);
    var last := ms[|ms| - 1];
    var r := InstallPrefixes(init.0, pid, PrefixList(last), EntryOf(last), ok);
    (r.0, init.1 + r.1)
  }

  /** Instances of pid whose file is not in valid are detached and forgotten. */
  function Retire(w: World, pid: PID, valid: set<OID>): World {
    if !w.m.tracing || pid !in w.m.interps then w else
    var mine := w.m.interps[pid];
    var gone := set o | o in mine && o !in valid :: mine[o];
    var left := map o | o in mine && o in valid :: mine[o];
    w.(m := w.m.(interps := if left == map[] then w.m.interps - {pid} else w.m.interps[pid := left]),
       h := w.h.(detached := w.h.detached + multiset(gone)))
  }

  function Unprobe(w: World, pid: PID): World {
    if pid !in w.m.probes || pid !in w.h.life then w.(m := w.m.(probes := w.m.probes - {pid})) else
    var gone := set a | a in w.m.probes[pid] :: (w.h.life[pid], a);
    w.(m := w.m.(probes := w.m.probes - {pid}), h := w.h.(unprobed := w.h.unprobed + multiset(gone)))
  }

  /** processPIDExit. */
  function Exit(w: World, pid: PID, t: KTime): World {
    if pid !in w.m.infos || pid in w.m.exits then w else
    var w1 := w.(m := Remove(w.m.(exits := w.m.exits[pid := t]), pid, w.m.infos[pid], {(pid, DUMMY)}));
    Unprobe(Retire(w1, pid, {}), pid)
  }

  function AttachInterpreter(w: World, pid: PID, oid: OID, a: Attach): World {
    if !a.Attaches? || (pid in w.m.interps && oid in w.m.interps[pid]) then w else
    var mine := if pid in w.m.interps then w.m.interps[pid] else map[];
    w.(m := w.m.(interps := w.m.interps[pid := mine[oid := |w.h.attached|]]),
       h := w.h.(attached := w.h.attached + [(pid, oid)]))
  }

  function AttachProbes(w: World, pid: PID, probes: set<Attacher>): World {
    if probes == {} || pid !in w.h.life then w else
    var mine := if pid in w.m.probes then w.m.probes[pid] else {};
    w.(m := w.m.(probes := w.m.probes[pid := mine + probes]),
       h := w.h.(probed := w.h.probed + set a | a in probes :: (w.h.life[pid], a)))
  }

  /** The old mapping a delivered line repeats, if any. */
  function Repeated(s: Sync, raw: RawMapping): Option<Mapping> {
    if raw.vaddr !in s.keys then None else
    var same := Filter(s.prior, {raw.vaddr});
    if same == [] then None else
    var m := same[|same| - 1];
    if m.length == raw.length && m.oid == raw.oid then Some(m) else None
  }

  function FreshMapping(raw: RawMapping): Mapping
    requires raw.elf.Loaded?
  {
    Mapping(raw.vaddr, raw.length, raw.oid, Frame(raw.elf.file, raw.elf.start, Wrap(raw.elf.start + raw.length)))
  }

  function Deliver(w: World, s: Sync, raw: RawMapping): World {
    if !raw.needed then w else
    match Repeated(s, raw)
    case Some(m) =>
      w.(sync := Some(s.(keys := s.keys - {raw.vaddr}, kept := s.kept + [m], mappings := s.mappings + [m],
                         valid := s.valid + {raw.oid})))
    case None =>
      if raw.elf.Unusable? then w else
      var w1 := w.(m := w.m.(refs := w.m.refs + multiset{raw.elf.file}));
      var w2 := AttachProbes(AttachInterpreter(w1, s.pid, raw.oid, raw.elf.attach), s.pid, raw.elf.probes);
      var m := FreshMapping(raw);
      w2.(sync := Some(s.(adds := s.adds + [m], mappings := s.mappings + [m], valid := s.valid + {raw.oid})))
  }

  // ----- Sorting for findMappingForTrace -----

  predicate Before(a: Mapping, b: Mapping) {
    a.frame.file < b.frame.file || (a.frame.file == b.frame.file && a.vaddr <= b.vaddr)
  }

  function InsertMapping(ms: seq<Mapping>, m: Mapping): seq<Mapping> {
    if ms == [] || Before(ms[|ms| - 1], m) then ms + [m]
    else InsertMapping(ms[..|ms| - 1], m) + [ms[|ms| - 1]]
  }

  function Sorted(ms: seq<Mapping>): seq<Mapping> {
    if ms == [] then [] else InsertMapping(Sorted(ms[..|ms| - 1]), ms[|ms| - 1])
  }

  // ----- Steps -----

  datatype Event =
    | Begin(pid: PID, dummyOk: bool)
    | Line(raw: RawMapping)
    | GiveUp
    | Gone(t: KTime)
    | Prune(interest: Option<FileID>)
    | Install(ok: Prefix -> bool)
    | Publish
    | Died(pid: PID, t: KTime)
    | ProcessedUntil(t: KTime)

  function Abandon(w: World): World
    requires w.sync.Some?
  {
    w.(sync := None, h := w.h.(leaked := w.h.leaked + Files(w.sync.value.adds)))
  }

  function Start(w: World, pid: PID): World
    requires pid in w.m.infos
  {
    var prior := w.m.infos[pid];
    w.(sync := Some(Sync(pid, prior, set m | m in prior :: m.vaddr, [], [], [], {}, Reading)))
  }

  function Create(w: World, pid: PID): World {
    w.(m := w.m.(infos := w.m.infos[pid := []], size := w.m.size + 1,
                 table := w.m.table[(pid, DUMMY) := Entry(0, 0)]),
       h := w.h.(life := w.h.life[pid := |w.h.lives|], lives := w.h.lives + [pid]))
  }

  function Instances(m: Manager, pids: set<PID>): set<Instance> {
    set pid, o | pid in m.interps.Keys * pids && o in m.interps[pid] :: m.interps[pid][o]
  }

  function Due(exits: map<PID, KTime>, t: KTime): set<PID> { set pid | pid in exits && exits[pid] <= t }

  /** ProcessedUntil: drops the pids that exited at or before t. */
  function Forget(w: World, t: KTime): World {
    var due := Due(w.m.exits, t);
    w.(m := w.m.(infos := w.m.infos - due, interps := w.m.interps - due, exits := w.m.exits - due),
       h := w.h.(detached := w.h.detached + multiset(Instances(w.m, due))))
  }

  function Step(w: World, e: Event): World {
    match e
    case Begin(pid, dummyOk) =>
      if w.sync.Some? || pid in w.m.exits then w
      else if pid in w.m.infos then Start(w, pid)
      else if dummyOk then Start(Create(w, pid), pid) else w
    case Line(raw) => if w.sync.Some? && w.sync.value.phase.Reading? then Deliver(w, w.sync.value, raw) else w
    case GiveUp => if w.sync.Some? && w.sync.value.phase.Reading? then Abandon(w) else w
    case Gone(t) =>
      if w.sync.Some? && w.sync.value.phase.Reading? then Exit(Abandon(w), w.sync.value.pid, t) else w
    case Prune(interest) =>
      if w.sync.Some? && w.sync.value.phase.Reading? then
        var s := w.sync.value;
        var w1 := Retire(w.(m := Remove(w.m, s.pid, Filter(s.prior, s.keys), {})), s.pid, s.valid);
        w1.(sync := Some(s.(phase := Pruned)),
            m := if interest.None? then w1.m
                 else w1.m.(table := w1.m.table[(s.pid, DUMMY) := Entry(interest.value, 0)]))
      else w
    case Install(ok) =>
      if w.sync.Some? && w.sync.value.phase.Pruned? then
        var s := w.sync.value;
        var r := InstallAll(w.m.table, s.pid, s.adds, ok);
        w.(m := w.m.(table := r.0, size := w.m.size + r.1), sync := Some(s.(phase := Installed)))
      else w
    case Publish =>
      if w.sync.Some? && w.sync.value.phase.Installed? then
        var s := w.sync.value;
        w.(m := w.m.(infos := w.m.infos[s.pid := Sorted(s.mappings)]), sync := None)
      else w
    case Died(pid, t) => if w.sync.Some? then w else Exit(w, pid, t)
    case ProcessedUntil(t) => Forget(w, t)
  }

  function Run(w: World, es: seq<Event>): World {
    if es == [] then w else Step(Run(w, es[..|es| - 1]), es[|es| - 1])
  }

  function Initial(tracing: bool): World {
    World(Manager(tracing, map[], map[], map[], map[], 0, map[], multiset{}),
          History([], multiset{}, [], map[], {}, multiset{}, multiset{}), None)
  }

  // ----- What the kernel guarantees about a maps read -----

  predicate Apart(a: Mapping, b: Mapping) {
    a.vaddr + a.length <= b.vaddr || b.vaddr + b.length <= a.vaddr
  }

  /** A line with positive length below the top of the address space, other than the single
      address 0, and disjoint from the mappings taken over so far. */
  predicate GoodLine(raw: RawMapping, ms: seq<Mapping>) {
    && raw.length > 0 && raw.vaddr + raw.length < 0x1_0000_0000_0000_0000 && raw.vaddr + raw.length > 1
    && forall m | m in ms :: raw.vaddr + raw.length <= m.vaddr || m.vaddr + m.length <= raw.vaddr
  }

  /** Lines are good; interpreters are only found by a manager that traces them. */
  predicate Legal(w: World, e: Event) {
    e.Line? && e.raw.needed && w.sync.Some? ==>
      && GoodLine(e.raw, w.sync.value.mappings)
      && (e.raw.elf.Loaded? && e.raw.elf.attach.Attaches? ==> w.m.tracing)
  }

  ghost predicate LegalRun(w: World, es: seq<Event>) {
    forall k | 0 <= k < |es| :: Legal(Run(w, es[..k]), es[k])
  }
}
