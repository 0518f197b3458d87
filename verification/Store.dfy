/** Report files: one save step by step, and many saves, readers and crashes interleaved. */
module Store {
  import opened Text
  import opened Headers

  type Bytes = seq<Byte>

  // ------------------------------------------------------------------------ names

  predicate IsIdChar(c: char) { '0' <= c <= '9' || 'a' <= c <= 'f' }

  predicate ValidId(id: string) {
    |id| == 32 && forall i :: 0 <= i < 32 ==> IsIdChar(id[i])
  }

  function ReportName(id: string): string { id + ".json" }

  function TempName(suffix: string): string { ".report-" + suffix }

  predicate IsTemp(name: string) { HasPrefix(name, ".report-") }

  lemma NamesDiffer(id: string, suffix: string)
    ensures ValidId(id) ==> !IsTemp(ReportName(id))
    ensures IsTemp(TempName(suffix))
  {
    if ValidId(id) {
      assert ReportName(id)[..8][0] == id[0];
      assert IsIdChar(id[0]);
    }
    assert TempName(suffix)[..8] == ".report-";
  }

  lemma ReportNameInjective(a: string, b: string)
    requires ValidId(a) && ValidId(b) && ReportName(a) == ReportName(b)
    ensures a == b
  {
    assert ReportName(a)[..32] == a && ReportName(b)[..32] == b;
  }

  // --------------------------------------------------------------- one save, alone

  /** The first step that fails, if any. */
  datatype Fault = NoFault | AtCreate | AtChmod | AtWrite(written: nat) | AtSync | AtClose | AtRename

  datatype SaveError = InvalidId | NotSaved(fault: Fault)

  /** What a save that fails after creating its temp file has put there. */
  function Written(encoded: Bytes, fault: Fault): Bytes {
    match fault
    case AtChmod => []
    case AtWrite(written) => if written < |encoded| then encoded[..written] else encoded
    case _ => encoded
  }

  /** The directory after a save: published, or as before but for a temp file that could
      not be removed. */
  function FilesAfter(files: map<string, Bytes>, id: string, encoded: Bytes, suffix: string, fault: Fault,
                      removeFails: bool): map<string, Bytes>
  {
    if !ValidId(id) || fault.AtCreate? then files
    else if fault.NoFault? then files[ReportName(id) := encoded]
    else if removeFails then files[TempName(suffix) := Written(encoded, fault)]
    else files
  }

  lemma AfterSave(files: map<string, Bytes>, id: string, encoded: Bytes, suffix: string, fault: Fault,
                  removeFails: bool)
    requires TempName(suffix) !in files
    ensures var after := FilesAfter(files, id, encoded, suffix, fault, removeFails);
            && (ValidId(id) && fault.NoFault? ==> after == files[ReportName(id) := encoded])
            && (!(ValidId(id) && fault.NoFault?) && !removeFails ==> after == files)
            && (!(ValidId(id) && fault.NoFault?) ==> after - {TempName(suffix)} == files)
            && (!ValidId(id) || fault.AtCreate? ==> after == files)
            && (ValidId(id) && !fault.AtCreate? && !fault.NoFault? && removeFails ==>
                  after == files[TempName(suffix) := Written(encoded, fault)])
  {
    hide ValidId, TempName, ReportName, Written;
    assert files - {TempName(suffix)} == files;
  }

  datatype GetError = NotFound | NotRead | NotDecoded

  class FileStore {
    var files: map<string, Bytes>

    constructor ()
      ensures files == map[]
    {
      files := map[];
    }

    /** Publish by writing a temporary file and renaming it. CreateTemp picks a name
        that does not exist. */
    method Save(id: string, encoded: Bytes, suffix: string, fault: Fault, removeFails: bool)
      returns (error: Option<SaveError>)
      requires TempName(suffix) !in files
      modifies this
      ensures error.None? <==> ValidId(id) && fault.NoFault?
      ensures files == FilesAfter(old(files), id, encoded, suffix, fault, removeFails)
      ensures error.None? ==> files == old(files)[ReportName(id) := encoded]
      ensures error.Some? && !removeFails ==> files == old(files)
      ensures error.Some? ==> files - {TempName(suffix)} == old(files)
    {
      NamesDiffer(id, suffix);
      AfterSave(files, id, encoded, suffix, fault, removeFails);
      if !ValidId(id) {
        return Some(InvalidId);
      }
      if fault.AtCreate? {
        return Some(NotSaved(fault));
      }
      var temp := TempName(suffix);
      files := files[temp := []];
      hide ValidId, TempName, ReportName, Written, FilesAfter;
      var ready := Fill(temp, encoded, fault);
      if !ready || fault.AtRename? {
        Remove(temp, removeFails);
        return Some(NotSaved(fault));
      }
      files := (files - {temp})[ReportName(id) := files[temp]];
      Remove(temp, removeFails);
      return None;
    }

    /** Chmod, write, sync and close. */
    method Fill(temp: string, encoded: Bytes, fault: Fault) returns (ready: bool)
      requires temp in files && files[temp] == []
      modifies this
      ensures ready <==> fault in {NoFault, AtCreate, AtRename}
      ensures files == old(files)[temp := Written(encoded, fault)]
      ensures ready ==> Written(encoded, fault) == encoded
    {
      if fault.AtChmod? {
        return false;
      }
      if fault.AtWrite? {
        files := files[temp := if fault.written < |encoded| then encoded[..fault.written] else encoded];
        return false;
      }
      files := files[temp := encoded];
      return !fault.AtSync? && !fault.AtClose?;
    }

    /** os.Remove, its error ignored. */
    method Remove(name: string, fails: bool)
      modifies this
      ensures files == if fails then old(files) else old(files) - {name}
    {
      if !fails {
        files := files - {name};
      }
    }

    /** `decode` reads the JSON of a report; reading a file that exists may fail. */
    method Get<R>(id: string, readFails: bool, decode: Bytes -> Option<R>) returns (r: Result<R, GetError>)
      ensures r == Err(NotFound) <==> !ValidId(id) || ReportName(id) !in files
      ensures r == Err(NotRead) <==> ValidId(id) && ReportName(id) in files && readFails
      ensures r.Ok? <==> ValidId(id) && ReportName(id) in files && !readFails && decode(files[ReportName(id)]).Some?
      ensures r.Ok? ==> decode(files[ReportName(id)]) == Some(r.value)
    {
      if !ValidId(id) {
        return Err(NotFound);
      }
      if ReportName(id) !in files {
        return Err(NotFound);
      }
      if readFails {
        return Err(NotRead);
      }
      var report := decode(files[ReportName(id)]);
      if report.None? {
        return Err(NotDecoded);
      }
      return Ok(report.value);
    }
  }

  // ------------------------------------------------------------ the shared directory

  /** Names lead to files; an open file survives its name. */
  datatype Disk = Disk(dir: map<string, nat>, content: map<nat, Bytes>, next: nat)

  datatype Stage = Writing | Synced | Closed | Renamed | Failed

  /** A handler between acquiring and releasing its slot. */
  datatype Handler =
    | Auditing
    | Saving(id: string, doc: Bytes, temp: string, file: nat, stage: Stage)
    | Finishing

  /** A Get that has opened a file and read part of it. */
  datatype Reader = Reader(id: string, file: nat, got: Bytes)

  datatype Report = Report(id: string, doc: Bytes)

  /** slots: the length of the semaphore channel. The rest is history. used: every temp
      name ever created. published: every report whose rename has happened. latest: the
      last one of each id. returned: what Gets have answered. orderly: no crash and no
      failed removal so far. */
  datatype System = System(
    disk: Disk, handlers: map<nat, Handler>, slots: nat, readers: map<nat, Reader>,
    used: set<string>, published: set<Report>, latest: map<string, Bytes>, returned: set<Report>, orderly: bool)

  datatype Step =
    | Acquire(h: nat)
    | Reject(h: nat)
    | Abandon(h: nat)
    | Create(h: nat, id: string, doc: Bytes, suffix: string)
    | Write(h: nat, n: nat)
    | Sync(h: nat)
    | Close(h: nat)
    | Fail(h: nat)
    | Rename(h: nat)
    | Remove(h: nat)
    | RemoveFails(h: nat)
    | Release(h: nat)
    | Crash
    | OpenReport(r: nat, id: string)
    | ReadSome(r: nat, n: nat)
    | Answer(r: nat)

  predicate SavingAt(s: System, h: nat, stages: set<Stage>) {
    h in s.handlers && s.handlers[h].Saving? && s.handlers[h].stage in stages && s.handlers[h].file in s.disk.content
  }

  /** When a step can happen. `unique` says whether temp names are never used twice. */
  predicate Enabled(max: nat, unique: bool, s: System, step: Step) {
    match step
    case Acquire(h) => h !in s.handlers && s.slots < max
    case Reject(h) => h !in s.handlers && s.slots >= max
    case Abandon(h) => h in s.handlers && s.handlers[h].Auditing?
    case Create(h, id, doc, suffix) =>
      && h in s.handlers && s.handlers[h].Auditing? && ValidId(id)
      && TempName(suffix) !in s.disk.dir
      && (unique ==> TempName(suffix) !in s.used)
    case Write(h, n) =>
      SavingAt(s, h, {Writing}) && |s.disk.content[s.handlers[h].file]| + n <= |s.handlers[h].doc|
    case Sync(h) => SavingAt(s, h, {Writing}) && |s.disk.content[s.handlers[h].file]| == |s.handlers[h].doc|
    case Close(h) => SavingAt(s, h, {Synced})
    case Fail(h) => SavingAt(s, h, {Writing, Synced, Closed})
    case Rename(h) => SavingAt(s, h, {Closed}) && s.handlers[h].temp in s.disk.dir
    case Remove(h) => SavingAt(s, h, {Renamed, Failed})
    case RemoveFails(h) => SavingAt(s, h, {Renamed, Failed})
    case Release(h) => h in s.handlers && s.handlers[h].Finishing? && s.slots > 0
    case Crash => true
    case OpenReport(r, id) =>
      r !in s.readers && ValidId(id) && ReportName(id) in s.disk.dir
      && s.disk.dir[ReportName(id)] in s.disk.content
    case ReadSome(r, n) =>
      r in s.readers && s.readers[r].file in s.disk.content
      && |s.readers[r].got| + n <= |s.disk.content[s.readers[r].file]|
    case Answer(r) =>
      r in s.readers && s.readers[r].file in s.disk.content
      && |s.readers[r].got| == |s.disk.content[s.readers[r].file]|
  }

  function Advance(s: System, h: nat, stage: Stage): System
    requires h in s.handlers && s.handlers[h].Saving?
  {
    s.(handlers := s.handlers[h := s.handlers[h].(stage := stage)])
  }

  function Created(s: System, h: nat, id: string, doc: Bytes, temp: string): System {
    var file := s.disk.next;
    s.(disk := Disk(s.disk.dir[temp := file], s.disk.content[file := []], file + 1),
       handlers := s.handlers[h := Saving(id, doc, temp, file, Writing)],
       used := s.used + {temp})
  }

  /** The temp name goes, the report name leads to its file, whatever that holds. */
  function Renaming(s: System, h: nat): System
    requires h in s.handlers && s.handlers[h].Saving? && s.handlers[h].temp in s.disk.dir
  {
    var mine := s.handlers[h];
    Advance(
      s.(disk := s.disk.(dir := (s.disk.dir - {mine.temp})[ReportName(mine.id) := s.disk.dir[mine.temp]]),
         published := s.published + {Report(mine.id, mine.doc)}, latest := s.latest[mine.id := mine.doc]),
      h, Renamed)
  }

  function Apply(max: nat, unique: bool, s: System, step: Step): System
    requires Enabled(max, unique, s, step)
  {
    match step
    case Acquire(h) => s.(handlers := s.handlers[h := Auditing], slots := s.slots + 1)
    case Reject(h) => s
    case Abandon(h) => s.(handlers := s.handlers[h := Finishing])
    case Create(h, id, doc, suffix) => Created(s, h, id, doc, TempName(suffix))
    case Write(h, n) =>
      var file, doc := s.handlers[h].file, s.handlers[h].doc;
      var prior := s.disk.content[file];
      s.(disk := s.disk.(content := s.disk.content[file := prior + doc[|prior|..|prior| + n]]))
    case Sync(h) => Advance(s, h, Synced)
    case Close(h) => Advance(s, h, Closed)
    case Fail(h) => Advance(s, h, Failed)
    case Rename(h) => Renaming(s, h)
    case Remove(h) =>
      s.(disk := s.disk.(dir := s.disk.dir - {s.handlers[h].temp}), handlers := s.handlers[h := Finishing])
    case RemoveFails(h) =>
      s.(handlers := s.handlers[h := Finishing], orderly := s.orderly && s.handlers[h].temp !in s.disk.dir)
    case Release(h) => s.(handlers := s.handlers - {h}, slots := s.slots - 1)
    case Crash => s.(handlers := map[], slots := 0, readers := map[], orderly := false)
    case OpenReport(r, id) => s.(readers := s.readers[r := Reader(id, s.disk.dir[ReportName(id)], [])])
    case ReadSome(r, n) =>
      var got, all := s.readers[r].got, s.disk.content[s.readers[r].file];
      s.(readers := s.readers[r := s.readers[r].(got := got + all[|got|..|got| + n])])
    case Answer(r) =>
      s.(readers := s.readers - {r}, returned := s.returned + {Report(s.readers[r].id, s.readers[r].got)})
  }

  const INITIAL := System(Disk(map[], map[], 0), map[], 0, map[], {}, {}, map[], {}, true)

  /** A run from s that ends in t. */
  predicate Run(max: nat, unique: bool, s: System, steps: seq<Step>, t: System)
    decreases |steps|
  {
    if steps == [] then t == s
    else
      Enabled(max, unique, s, steps[0]) && Run(max, unique, Apply(max, unique, s, steps[0]), steps[1..], t)
  }

  lemma OneStep(max: nat, unique: bool, s: System, step: Step)
    requires Enabled(max, unique, s, step)
    ensures Run(max, unique, s, [step], Apply(max, unique, s, step))
  {
    hide Enabled, Apply;
    assert [step][1..] == [];
  }

  lemma {:induction false} RunConcat(max: nat, unique: bool, s: System, first: seq<Step>, m: System,
                                     second: seq<Step>, t: System)
    requires Run(max, unique, s, first, m) && Run(max, unique, m, second, t)
    ensures Run(max, unique, s, first + second, t)
    decreases |first|
  {
    hide Enabled, Apply;
    if first == [] {
      assert first + second == second;
    } else {
      assert (first + second)[1..] == first[1..] + second;
      RunConcat(max, unique, Apply(max, unique, s, first[0]), first[1..], m, second, t);
    }
  }

  // -------------------------------------------------------------------- invariant

  /** The file is one complete encoding of a report published under the id. */
  predicate Whole(s: System, id: string, file: nat) {
    file in s.disk.content && Report(id, s.disk.content[file]) in s.published
  }

  /** The file is the last document renamed to the id. */
  predicate Current(s: System, id: string, file: nat) {
    id in s.latest && Whole(s, id, file) && s.disk.content[file] == s.latest[id]
  }

  /** Still on the way to its rename. */
  predicate Unpublished(h: Handler) {
    h.Saving? && !h.stage.Renamed?
  }

  /** No two names lead to one file. */
  predicate DiskOk(d: Disk) {
    && (forall f :: f in d.content ==> f < d.next)
    && (forall name :: name in d.dir ==> d.dir[name] in d.content)
    && forall a, b :: a in d.dir && b in d.dir && a != b ==> d.dir[a] != d.dir[b]
  }

  /** Every name is a used temp name or the current report of an id. */
  ghost predicate NameOk(s: System, name: string)
    requires name in s.disk.dir
  {
    (IsTemp(name) && name in s.used)
    || exists id :: ValidId(id) && name == ReportName(id) && Current(s, id, s.disk.dir[name])
  }

  /** What has been published is still there. */
  predicate Visible(latest: map<string, Bytes>, dir: map<string, nat>) {
    forall id :: id in latest ==> ValidId(id) && ReportName(id) in dir
  }

  predicate SavingOk(s: System, h: Handler)
    requires h.Saving?
  {
    && ValidId(h.id) && IsTemp(h.temp) && h.temp in s.used
    && h.file in s.disk.content
    && (h.stage.Renamed? ==> h.temp !in s.disk.dir)
    && (Unpublished(h) ==>
          && s.disk.content[h.file] <= h.doc
          && (h.stage.Synced? || h.stage.Closed? ==> s.disk.content[h.file] == h.doc)
          && (forall name :: name in s.disk.dir && s.disk.dir[name] == h.file ==> name == h.temp)
          && (h.temp in s.disk.dir ==> s.disk.dir[h.temp] == h.file))
  }

  predicate Apart(h: Handler, k: Handler) {
    h.Saving? && k.Saving? ==> h.temp != k.temp && h.file != k.file
  }

  predicate ReaderOk(s: System, r: Reader) {
    && Whole(s, r.id, r.file) && r.got <= s.disk.content[r.file]
    && (forall name :: name in s.disk.dir && s.disk.dir[name] == r.file ==> !IsTemp(name))
    && forall h :: h in s.handlers && Unpublished(s.handlers[h]) ==> s.handlers[h].file != r.file
  }

  ghost predicate TempOwned(s: System, name: string) {
    exists h :: h in s.handlers && s.handlers[h].Saving? && s.handlers[h].temp == name
  }

  ghost predicate Inv(max: nat, s: System) {
    && DiskOk(s.disk)
    && (forall name :: name in s.disk.dir ==> NameOk(s, name))
    && (forall h :: h in s.handlers && s.handlers[h].Saving? ==> SavingOk(s, s.handlers[h]))
    && (forall h, k :: h in s.handlers && k in s.handlers && h != k ==> Apart(s.handlers[h], s.handlers[k]))
    && (forall r :: r in s.readers ==> ReaderOk(s, s.readers[r]))
    && s.returned <= s.published
    && Visible(s.latest, s.disk.dir)
    && s.slots == |s.handlers| <= max
    && (s.orderly ==> forall name :: name in s.disk.dir && IsTemp(name) ==> TempOwned(s, name))
  }

  // ------------------------------------------------------- every step keeps it

  /** Name facts carry over when the disk, the used names and the saves only grow. */
  lemma SameDisk(s: System, t: System)
    requires s.disk == t.disk && s.used <= t.used && s.published <= t.published && s.latest == t.latest
    ensures forall name :: name in s.disk.dir && NameOk(s, name) ==> NameOk(t, name)
  {
    forall name | name in s.disk.dir && NameOk(s, name) ensures NameOk(t, name) {
      if id :| ValidId(id) && name == ReportName(id) && Current(s, id, s.disk.dir[name]) {
        assert Current(t, id, t.disk.dir[name]);
      }
    }
  }

  /** A handler that goes on with its temp file, or leaves without one. */
  predicate CanMove(s: System, h: nat, to: Handler) {
    && h in s.handlers
    && (to.Saving? ==> SavingOk(s, to) && s.handlers[h].Saving?
                       && to.temp == s.handlers[h].temp && to.file == s.handlers[h].file
                       && (Unpublished(to) ==> Unpublished(s.handlers[h])))
    && (s.handlers[h].Saving? && s.handlers[h].temp in s.disk.dir && s.orderly ==> to.Saving?)
  }

  lemma MovedHolders(max: nat, s: System, h: nat, to: Handler)
    requires Inv(max, s) && CanMove(s, h, to)
    ensures var t := s.(handlers := s.handlers[h := to]);
            && (forall k :: k in t.handlers && t.handlers[k].Saving? ==> SavingOk(t, t.handlers[k]))
            && (forall j, k :: j in t.handlers && k in t.handlers && j != k ==> Apart(t.handlers[j], t.handlers[k]))
            && (t.orderly ==> forall name :: name in t.disk.dir && IsTemp(name) ==> TempOwned(t, name))
  {
    hide DiskOk, Visible, NameOk, ReaderOk, ValidId, IsTemp, ReportName;
    var t := s.(handlers := s.handlers[h := to]);
    forall k | k in t.handlers && t.handlers[k].Saving? ensures SavingOk(t, t.handlers[k]) {
      if k != h { assert SavingOk(s, s.handlers[k]); }
    }
    hide SavingOk;
    forall j, k | j in t.handlers && k in t.handlers && j != k ensures Apart(t.handlers[j], t.handlers[k]) {
      assert Apart(s.handlers[j], s.handlers[k]);
    }
    forall name | t.orderly && name in t.disk.dir && IsTemp(name) ensures TempOwned(t, name) {
      assert TempOwned(s, name);
      var k :| k in s.handlers && s.handlers[k].Saving? && s.handlers[k].temp == name;
      assert t.handlers[k].Saving? && t.handlers[k].temp == name;
    }
  }

  /** Such a move keeps everything. */
  lemma HandlerMoves(max: nat, s: System, h: nat, to: Handler)
    requires Inv(max, s) && CanMove(s, h, to)
    ensures Inv(max, s.(handlers := s.handlers[h := to]))
  {
    MovedHolders(max, s, h, to);
    hide DiskOk, Visible, NameOk, SavingOk, Apart, TempOwned, IsTemp;
    var t := s.(handlers := s.handlers[h := to]);
    assert t.handlers.Keys == s.handlers.Keys;
    assert |t.handlers| == |t.handlers.Keys| == |s.handlers|;
    SameDisk(s, t);
    forall r | r in t.readers ensures ReaderOk(t, t.readers[r]) {
      assert ReaderOk(s, s.readers[r]);
    }
  }

  /** Temp files of the other handlers stay owned. */
  lemma OthersStay(s: System, t: System, h: nat)
    requires forall k :: k in s.handlers && k != h ==> k in t.handlers && t.handlers[k] == s.handlers[k]
    requires h in s.handlers ==> !s.handlers[h].Saving?
    ensures forall name :: TempOwned(s, name) ==> TempOwned(t, name)
  {
    forall name | TempOwned(s, name) ensures TempOwned(t, name) {
      var k :| k in s.handlers && s.handlers[k].Saving? && s.handlers[k].temp == name;
      assert t.handlers[k] == s.handlers[k];
    }
  }

  /** Taking or giving back a slot changes nothing the rest depends on. */
  lemma SlotChanges(s: System, t: System, h: nat)
    requires forall r :: r in s.readers ==> ReaderOk(s, s.readers[r])
    requires forall k :: k in s.handlers && s.handlers[k].Saving? ==> SavingOk(s, s.handlers[k])
    requires t == s.(handlers := t.handlers, slots := t.slots)
    requires t.handlers - {h} == s.handlers - {h}
    requires (h in s.handlers ==> !s.handlers[h].Saving?) && (h in t.handlers ==> !t.handlers[h].Saving?)
    ensures forall k :: k in t.handlers && t.handlers[k].Saving? ==>
                          k != h && k in s.handlers && t.handlers[k] == s.handlers[k]
    ensures forall k :: k in t.handlers && t.handlers[k].Saving? ==> SavingOk(t, t.handlers[k])
    ensures forall r :: r in t.readers ==> ReaderOk(t, t.readers[r])
    ensures (forall j, k :: j in s.handlers && k in s.handlers && j != k ==> Apart(s.handlers[j], s.handlers[k])) ==>
              forall j, k :: j in t.handlers && k in t.handlers && j != k ==> Apart(t.handlers[j], t.handlers[k])
  {
    hide ValidId, IsTemp;
    forall k | k in t.handlers && t.handlers[k].Saving?
      ensures k != h && k in s.handlers && t.handlers[k] == s.handlers[k]
    {
      assert k in t.handlers - {h};
    }
    forall r | r in t.readers ensures ReaderOk(t, t.readers[r]) {
      assert ReaderOk(s, s.readers[r]);
    }
  }

  lemma SlotsCount(max: nat, s: System)
    requires Inv(max, s)
    ensures s.slots == |s.handlers| <= max
  {
  }

  lemma SlotKeeps(max: nat, s: System, t: System, h: nat)
    requires Inv(max, s)
    requires t == s.(handlers := t.handlers, slots := t.slots)
    requires t.handlers - {h} == s.handlers - {h} && t.slots == |t.handlers| <= max
    requires (h in s.handlers ==> !s.handlers[h].Saving?) && (h in t.handlers ==> !t.handlers[h].Saving?)
    ensures Inv(max, t)
  {
    hide NameOk, TempOwned, SavingOk, ReaderOk, Apart, IsTemp;
    SameDisk(s, t);
    forall k | k in s.handlers && k != h ensures k in t.handlers && t.handlers[k] == s.handlers[k] {
      assert k in s.handlers - {h};
    }
    OthersStay(s, t, h);
    SlotChanges(s, t, h);
  }

  lemma Entered(handlers: map<nat, Handler>, h: nat)
    requires h !in handlers
    ensures |handlers[h := Auditing]| == |handlers| + 1
    ensures handlers[h := Auditing] - {h} == handlers - {h}
  {
    var more := handlers[h := Auditing];
    assert more.Keys == handlers.Keys + {h};
    assert |more| == |more.Keys| && |handlers| == |handlers.Keys|;
  }

  lemma Left(handlers: map<nat, Handler>, h: nat)
    requires h in handlers
    ensures |handlers - {h}| == |handlers| - 1
    ensures handlers - {h} - {h} == handlers - {h}
  {
    var fewer := handlers - {h};
    assert fewer.Keys == handlers.Keys - {h};
    assert |fewer| == |fewer.Keys| && |handlers| == |handlers.Keys|;
  }

  lemma AcquireKeeps(max: nat, s: System, h: nat)
    requires Inv(max, s) && h !in s.handlers && s.slots < max
    ensures Inv(max, s.(handlers := s.handlers[h := Auditing], slots := s.slots + 1))
  {
    hide Inv;
    Entered(s.handlers, h);
    SlotsCount(max, s);
    SlotKeeps(max, s, s.(handlers := s.handlers[h := Auditing], slots := s.slots + 1), h);
  }

  lemma ReleaseKeeps(max: nat, s: System, h: nat)
    requires Inv(max, s) && h in s.handlers && s.handlers[h].Finishing? && s.slots > 0
    ensures Inv(max, s.(handlers := s.handlers - {h}, slots := s.slots - 1))
  {
    hide Inv;
    Left(s.handlers, h);
    SlotsCount(max, s);
    SlotKeeps(max, s, s.(handlers := s.handlers - {h}, slots := s.slots - 1), h);
  }

  predicate CanCreate(s: System, h: nat, id: string, temp: string) {
    && h in s.handlers && s.handlers[h].Auditing? && ValidId(id) && IsTemp(temp)
    && temp !in s.disk.dir && temp !in s.used
  }

  lemma NamesAfterCreate(max: nat, s: System, h: nat, id: string, doc: Bytes, temp: string)
    requires Inv(max, s) && CanCreate(s, h, id, temp)
    ensures var t := Created(s, h, id, doc, temp); forall name :: name in t.disk.dir ==> NameOk(t, name)
  {
    hide ValidId, IsTemp, ReportName, SavingOk, ReaderOk, TempOwned, Apart;
    var t := Created(s, h, id, doc, temp);
    forall name | name in t.disk.dir ensures NameOk(t, name) {
      if name != temp {
        assert NameOk(s, name);
        if i :| ValidId(i) && name == ReportName(i) && Current(s, i, s.disk.dir[name]) {
          assert Current(t, i, t.disk.dir[name]);
        }
      }
    }
  }

  lemma SavesAfterCreate(max: nat, s: System, h: nat, id: string, doc: Bytes, temp: string)
    requires Inv(max, s) && CanCreate(s, h, id, temp)
    ensures var t := Created(s, h, id, doc, temp);
            && (forall k :: k in t.handlers && t.handlers[k].Saving? ==> SavingOk(t, t.handlers[k]))
            && (forall j, k :: j in t.handlers && k in t.handlers && j != k ==> Apart(t.handlers[j], t.handlers[k]))
            && (forall r :: r in t.readers ==> ReaderOk(t, t.readers[r]))
  {
    hide ValidId, IsTemp, NameOk, TempOwned;
    var t := Created(s, h, id, doc, temp);
    forall k | k in t.handlers && t.handlers[k].Saving? ensures SavingOk(t, t.handlers[k]) {
      if k != h { assert SavingOk(s, s.handlers[k]); }
    }
    forall j, k | j in t.handlers && k in t.handlers && j != k ensures Apart(t.handlers[j], t.handlers[k]) {
      assert j != h && s.handlers[j].Saving? ==> SavingOk(s, s.handlers[j]);
      assert k != h && s.handlers[k].Saving? ==> SavingOk(s, s.handlers[k]);
      assert Apart(s.handlers[j], s.handlers[k]);
    }
    forall r | r in t.readers ensures ReaderOk(t, t.readers[r]) {
      assert ReaderOk(s, s.readers[r]);
    }
  }

  /** A new temp file has a name nobody holds and is a file nobody reads. */
  lemma CreateKeeps(max: nat, s: System, h: nat, id: string, doc: Bytes, temp: string)
    requires Inv(max, s) && CanCreate(s, h, id, temp)
    ensures Inv(max, Created(s, h, id, doc, temp))
  {
    hide NameOk, SavingOk, ReaderOk, Apart, ValidId, IsTemp, ReportName;
    var t := Created(s, h, id, doc, temp);
    NamesAfterCreate(max, s, h, id, doc, temp);
    SavesAfterCreate(max, s, h, id, doc, temp);
    assert t.handlers.Keys == s.handlers.Keys;
    assert |t.handlers| == |t.handlers.Keys| == |s.handlers|;
    OthersStay(s, t, h);
    assert TempOwned(t, temp) by { assert t.handlers[h].temp == temp; }
    forall name | t.orderly && name in t.disk.dir && IsTemp(name) ensures TempOwned(t, name) {
      if name != temp { assert TempOwned(s, name); }
    }
  }

  lemma WriteKeeps(max: nat, s: System, h: nat, n: nat)
    requires Inv(max, s) && Enabled(max, true, s, Write(h, n))
    ensures Inv(max, Apply(max, true, s, Write(h, n)))
  {
    hide ValidId, IsTemp, ReportName, TempOwned;
    var t := Apply(max, true, s, Write(h, n));
    var file := s.handlers[h].file;
    assert SavingOk(s, s.handlers[h]);
    assert forall f :: f in s.disk.content && f != file ==> t.disk.content[f] == s.disk.content[f];
    forall name | name in t.disk.dir ensures NameOk(t, name) {
      assert NameOk(s, name);
      if i :| ValidId(i) && name == ReportName(i) && Current(s, i, s.disk.dir[name]) {
        NotTemp(i, s.handlers[h].temp);
        assert Current(t, i, t.disk.dir[name]);
      }
    }
    forall k | k in t.handlers && t.handlers[k].Saving? ensures SavingOk(t, t.handlers[k]) {
      assert SavingOk(s, s.handlers[k]);
      if k != h { assert Apart(s.handlers[h], s.handlers[k]); }
    }
    forall r | r in t.readers ensures ReaderOk(t, t.readers[r]) {
      assert ReaderOk(s, s.readers[r]);
    }
    forall name | t.orderly && name in t.disk.dir && IsTemp(name) ensures TempOwned(t, name) {
      assert TempOwned(s, name);
      OwnersStay(s, t, name);
    }
  }

  lemma OwnersStay(s: System, t: System, name: string)
    requires t.handlers == s.handlers && TempOwned(s, name)
    ensures TempOwned(t, name)
  {
  }

  lemma NotTemp(id: string, temp: string)
    requires ValidId(id) && IsTemp(temp)
    ensures ReportName(id) != temp
  {
    NamesDiffer(id, "");
  }

  lemma AbandonKeeps(max: nat, s: System, h: nat)
    requires Inv(max, s) && Enabled(max, true, s, Abandon(h))
    ensures Inv(max, Apply(max, true, s, Abandon(h)))
  {
    HandlerMoves(max, s, h, Finishing);
  }

  lemma AdvanceKeeps(max: nat, s: System, h: nat, stage: Stage)
    requires Inv(max, s) && SavingAt(s, h, {Writing, Synced, Closed}) && !stage.Renamed?
    requires stage.Synced? || stage.Closed? ==> s.disk.content[s.handlers[h].file] == s.handlers[h].doc
    ensures Inv(max, Advance(s, h, stage))
  {
    assert SavingOk(s, s.handlers[h]);
    HandlerMoves(max, s, h, s.handlers[h].(stage := stage));
  }

  lemma SyncKeeps(max: nat, s: System, h: nat)
    requires Inv(max, s) && Enabled(max, true, s, Sync(h))
    ensures Inv(max, Apply(max, true, s, Sync(h)))
  {
    assert SavingOk(s, s.handlers[h]);
    AdvanceKeeps(max, s, h, Synced);
  }

  lemma CloseKeeps(max: nat, s: System, h: nat)
    requires Inv(max, s) && Enabled(max, true, s, Close(h))
    ensures Inv(max, Apply(max, true, s, Close(h)))
  {
    assert SavingOk(s, s.handlers[h]);
    AdvanceKeeps(max, s, h, Closed);
  }

  lemma NamesAfterRename(max: nat, s: System, h: nat)
    requires Inv(max, s) && Enabled(max, true, s, Rename(h))
    ensures var t := Apply(max, true, s, Rename(h)); forall name :: name in t.disk.dir ==> NameOk(t, name)
  {
    hide ValidId, IsTemp, ReportName, ReaderOk, TempOwned, Apart;
    var t, mine := Apply(max, true, s, Rename(h)), s.handlers[h];
    assert SavingOk(s, mine);
    forall name | name in t.disk.dir ensures NameOk(t, name) {
      if name == ReportName(mine.id) {
        assert Current(t, mine.id, t.disk.dir[name]);
      } else {
        assert NameOk(s, name);
        if i :| ValidId(i) && name == ReportName(i) && Current(s, i, s.disk.dir[name]) {
          assert Current(t, i, t.disk.dir[name]);
        }
      }
    }
  }

  lemma DiskAfterRename(max: nat, s: System, h: nat)
    requires Inv(max, s) && Enabled(max, true, s, Rename(h))
    ensures var t := Apply(max, true, s, Rename(h)); DiskOk(t.disk) && Visible(t.latest, t.disk.dir)
  {
    hide ValidId, IsTemp, ReportName, NameOk, ReaderOk, TempOwned, Apart, Current;
    var t, mine := Apply(max, true, s, Rename(h)), s.handlers[h];
    assert SavingOk(s, mine);
    forall id | id in t.latest ensures ValidId(id) && ReportName(id) in t.disk.dir {
      if id != mine.id { NotTemp(id, mine.temp); }
    }
  }

  lemma HoldersAfterRename(max: nat, s: System, h: nat)
    requires Inv(max, s) && Enabled(max, true, s, Rename(h))
    ensures var t := Apply(max, true, s, Rename(h));
            && (forall j, k :: j in t.handlers && k in t.handlers && j != k ==> Apart(t.handlers[j], t.handlers[k]))
            && (forall r :: r in t.readers ==> ReaderOk(t, t.readers[r]))
            && (t.orderly ==> forall name :: name in t.disk.dir && IsTemp(name) ==> TempOwned(t, name))
  {
    hide ValidId, IsTemp, ReportName, NameOk, Visible, DiskOk;
    var t, mine := Apply(max, true, s, Rename(h)), s.handlers[h];
    assert SavingOk(s, mine);
    hide SavingOk;
    forall j, k | j in t.handlers && k in t.handlers && j != k ensures Apart(t.handlers[j], t.handlers[k]) {
      assert Apart(s.handlers[j], s.handlers[k]);
    }
    forall r | r in t.readers ensures ReaderOk(t, t.readers[r]) {
      assert ReaderOk(s, s.readers[r]);
      NotTemp(mine.id, mine.temp);
      NamesDiffer(mine.id, "");
    }
    forall name | t.orderly && name in t.disk.dir && IsTemp(name) ensures TempOwned(t, name) {
      NotTempNamed(mine.id, name);
      assert TempOwned(s, name);
      var k :| k in s.handlers && s.handlers[k].Saving? && s.handlers[k].temp == name;
      assert t.handlers[k].Saving? && t.handlers[k].temp == name;
    }
  }

  /** The temp file becomes the report: it is complete, and no longer written. */
  lemma RenameKeeps(max: nat, s: System, h: nat)
    requires Inv(max, s) && Enabled(max, true, s, Rename(h))
    ensures Inv(max, Apply(max, true, s, Rename(h)))
    ensures var t := Apply(max, true, s, Rename(h));
            var name := ReportName(s.handlers[h].id);
            name in t.disk.dir && t.disk.content[t.disk.dir[name]] == s.handlers[h].doc
  {
    hide ValidId, IsTemp, ReportName, NameOk, Visible, DiskOk, ReaderOk, Apart, TempOwned;
    var t := Apply(max, true, s, Rename(h));
    assert t.handlers.Keys == s.handlers.Keys;
    assert |t.handlers| == |t.handlers.Keys| == |s.handlers|;
    DiskAfterRename(max, s, h);
    NamesAfterRename(max, s, h);
    SavesAfterRename(max, s, h);
    HoldersAfterRename(max, s, h);
    assert SavingOk(s, s.handlers[h]);
  }

  lemma NotTempNamed(id: string, name: string)
    requires IsTemp(name)
    ensures ValidId(id) ==> ReportName(id) != name
  {
    NamesDiffer(id, "");
  }

  lemma SavesAfterRename(max: nat, s: System, h: nat)
    requires Inv(max, s) && Enabled(max, true, s, Rename(h))
    ensures ValidId(s.handlers[h].id)
    ensures var t := Apply(max, true, s, Rename(h));
            forall k :: k in t.handlers && t.handlers[k].Saving? ==> SavingOk(t, t.handlers[k])
  {
    hide ValidId, IsTemp, ReportName, NameOk, ReaderOk, TempOwned;
    var t, mine := Apply(max, true, s, Rename(h)), s.handlers[h];
    assert SavingOk(s, mine);
    NotTemp(mine.id, mine.temp);
    forall k | k in t.handlers && t.handlers[k].Saving? ensures SavingOk(t, t.handlers[k]) {
      assert SavingOk(s, s.handlers[k]);
      NotTemp(mine.id, s.handlers[k].temp);
      if k != h { assert Apart(mine, s.handlers[k]); }
    }
  }

  function Without(s: System, temp: string): System {
    s.(disk := s.disk.(dir := s.disk.dir - {temp}), orderly := false)
  }

  lemma NamesWithout(max: nat, s: System, temp: string)
    requires Inv(max, s)
    ensures var u := Without(s, temp); forall name :: name in u.disk.dir ==> NameOk(u, name)
  {
    hide ValidId, IsTemp, ReportName, SavingOk, ReaderOk, TempOwned, Apart, DiskOk, Visible;
    var u := Without(s, temp);
    forall name | name in u.disk.dir ensures NameOk(u, name) {
      assert NameOk(s, name);
      if i :| ValidId(i) && name == ReportName(i) && Current(s, i, s.disk.dir[name]) {
        assert Current(u, i, u.disk.dir[name]);
      }
    }
  }

  lemma HoldersWithout(max: nat, s: System, temp: string)
    requires Inv(max, s)
    ensures var u := Without(s, temp);
            && (forall k :: k in u.handlers && u.handlers[k].Saving? ==> SavingOk(u, u.handlers[k]))
            && (forall r :: r in u.readers ==> ReaderOk(u, u.readers[r]))
  {
    hide ValidId, IsTemp, NameOk, TempOwned, Apart, DiskOk, Visible;
    var u := Without(s, temp);
    forall k | k in u.handlers && u.handlers[k].Saving? ensures SavingOk(u, u.handlers[k]) {
      assert SavingOk(s, s.handlers[k]);
    }
    forall r | r in u.readers ensures ReaderOk(u, u.readers[r]) {
      assert ReaderOk(s, s.readers[r]);
    }
  }

  /** Losing a temp name costs the invariant only its last clause. */
  lemma NameGone(max: nat, s: System, temp: string)
    requires Inv(max, s) && IsTemp(temp)
    ensures Inv(max, Without(s, temp))
  {
    hide ValidId, IsTemp, ReportName, NameOk, SavingOk, ReaderOk, Visible;
    NamesWithout(max, s, temp);
    HoldersWithout(max, s, temp);
    VisibleWithout(s, temp);
  }

  lemma VisibleWithout(s: System, temp: string)
    requires Visible(s.latest, s.disk.dir) && IsTemp(temp)
    ensures Visible(s.latest, s.disk.dir - {temp})
  {
    hide ValidId, IsTemp, ReportName;
    forall id | id in s.latest ensures ReportName(id) in s.disk.dir - {temp} { NotTemp(id, temp); }
  }

  /** The deferred removal takes away the handler's own temp name, if that is still
      there, and nothing else: no report and no temp name of another handler. */
  lemma RemoveKeeps(max: nat, s: System, h: nat)
    requires Inv(max, s) && Enabled(max, true, s, Remove(h))
    ensures Inv(max, Apply(max, true, s, Remove(h)))
    ensures var t := Apply(max, true, s, Remove(h));
            && s.disk.dir.Keys - t.disk.dir.Keys == {s.handlers[h].temp} * s.disk.dir.Keys
            && (forall name :: name in t.disk.dir ==> name in s.disk.dir && t.disk.dir[name] == s.disk.dir[name])
            && (forall id :: ValidId(id) && ReportName(id) in s.disk.dir ==> ReportName(id) in t.disk.dir)
            && (forall k :: k in s.handlers && k != h && s.handlers[k].Saving? && s.handlers[k].temp in s.disk.dir ==>
                              s.handlers[k].temp in t.disk.dir)
            && (s.handlers[h].stage.Renamed? ==> t.disk == s.disk)
  {
    hide ValidId, IsTemp, ReportName, NameOk, SavingOk, ReaderOk, DiskOk, Visible;
    var mine := s.handlers[h];
    var t := Apply(max, true, s, Remove(h));
    OwnTemp(max, s, h);
    RemoveKeepsInv(max, s, h);
    forall id | ValidId(id) && ReportName(id) in s.disk.dir ensures ReportName(id) in t.disk.dir {
      NotTemp(id, mine.temp);
    }
    forall k | k in s.handlers && k != h && s.handlers[k].Saving? && s.handlers[k].temp in s.disk.dir
      ensures s.handlers[k].temp in t.disk.dir
    {
      assert Apart(s.handlers[k], mine);
    }
    if mine.stage.Renamed? { assert t.disk.dir == s.disk.dir; }
  }

  lemma OwnTemp(max: nat, s: System, h: nat)
    requires Inv(max, s) && h in s.handlers && s.handlers[h].Saving?
    ensures IsTemp(s.handlers[h].temp)
    ensures s.handlers[h].stage.Renamed? ==> s.handlers[h].temp !in s.disk.dir
  {
    assert SavingOk(s, s.handlers[h]);
  }

  lemma RemoveKeepsInv(max: nat, s: System, h: nat)
    requires Inv(max, s) && Enabled(max, true, s, Remove(h))
    ensures Inv(max, Apply(max, true, s, Remove(h)))
  {
    hide ValidId, IsTemp, ReportName, NameOk, SavingOk, ReaderOk, DiskOk, Visible;
    var mine := s.handlers[h];
    var u := Without(s, mine.temp);
    var t := Apply(max, true, s, Remove(h));
    OwnTemp(max, s, h);
    NameGone(max, s, mine.temp);
    HandlerMoves(max, u, h, Finishing);
    forall name | t.orderly && name in t.disk.dir && IsTemp(name) ensures TempOwned(t, name) {
      assert TempOwned(s, name);
      var k :| k in s.handlers && s.handlers[k].Saving? && s.handlers[k].temp == name;
      assert t.handlers[k].Saving? && t.handlers[k].temp == name;
    }
    OrderlyAside(max, u.(handlers := u.handlers[h := Finishing]), t);
  }

  lemma OrderlyAside(max: nat, u: System, t: System)
    requires Inv(max, u) && u == t.(orderly := false)
    requires t.orderly ==> forall name :: name in t.disk.dir && IsTemp(name) ==> TempOwned(t, name)
    ensures Inv(max, t)
  {
    hide IsTemp, TempOwned, DiskOk, Visible;
    forall name | name in t.disk.dir ensures NameOk(t, name) {
      assert NameOk(u, name);
    }
    forall k | k in t.handlers && t.handlers[k].Saving? ensures SavingOk(t, t.handlers[k]) {
      assert SavingOk(u, u.handlers[k]);
    }
    forall r | r in t.readers ensures ReaderOk(t, t.readers[r]) {
      assert ReaderOk(u, u.readers[r]);
    }
  }

  lemma RemoveFailsKeeps(max: nat, s: System, h: nat)
    requires Inv(max, s) && Enabled(max, true, s, RemoveFails(h))
    ensures Inv(max, Apply(max, true, s, RemoveFails(h)))
  {
    var u := s.(orderly := s.orderly && s.handlers[h].temp !in s.disk.dir);
    SameDisk(s, u);
    assert Inv(max, u) by {
      forall k | k in u.handlers && u.handlers[k].Saving? ensures SavingOk(u, u.handlers[k]) {
        assert SavingOk(s, s.handlers[k]);
      }
      forall r | r in u.readers ensures ReaderOk(u, u.readers[r]) {
        assert ReaderOk(s, s.readers[r]);
      }
      forall name | u.orderly && name in u.disk.dir && IsTemp(name) ensures TempOwned(u, name) {
        assert TempOwned(s, name);
        OwnersStay(s, u, name);
      }
    }
    HandlerMoves(max, u, h, Finishing);
  }

  lemma CrashKeeps(max: nat, s: System)
    requires Inv(max, s)
    ensures Inv(max, Apply(max, true, s, Crash))
  {
    SameDisk(s, Apply(max, true, s, Crash));
  }

  lemma OpenKeeps(max: nat, s: System, r: nat, id: string)
    requires Inv(max, s) && Enabled(max, true, s, OpenReport(r, id))
    ensures Inv(max, Apply(max, true, s, OpenReport(r, id)))
  {
    hide ValidId, IsTemp, ReportName, TempOwned;
    var name := ReportName(id);
    var file := s.disk.dir[name];
    assert NameOk(s, name);
    NamesDiffer(id, "");
    var i :| ValidId(i) && name == ReportName(i) && Current(s, i, file);
    ReportNameInjective(id, i);
    forall h | h in s.handlers && Unpublished(s.handlers[h]) ensures s.handlers[h].file != file {
      assert SavingOk(s, s.handlers[h]);
      NotTemp(id, s.handlers[h].temp);
    }
    assert ReaderOk(s, Reader(id, file, []));
    ReadersChange(max, s, s.readers[r := Reader(id, file, [])], s.returned);
  }

  lemma ReadersChange(max: nat, s: System, readers: map<nat, Reader>, returned: set<Report>)
    requires Inv(max, s) && returned <= s.published
    requires forall r :: r in readers ==> ReaderOk(s, readers[r])
    ensures Inv(max, s.(readers := readers, returned := returned))
  {
    hide ValidId, IsTemp, ReportName;
    var t := s.(readers := readers, returned := returned);
    SameDisk(s, t);
    forall k | k in t.handlers && t.handlers[k].Saving? ensures SavingOk(t, t.handlers[k]) {
      assert SavingOk(s, s.handlers[k]);
    }
    forall r | r in t.readers ensures ReaderOk(t, t.readers[r]) {
      assert ReaderOk(s, readers[r]);
    }
    forall name | t.orderly && name in t.disk.dir && IsTemp(name) ensures TempOwned(t, name) {
      assert TempOwned(s, name);
      OwnersStay(s, t, name);
    }
  }

  lemma ReadKeeps(max: nat, s: System, r: nat, n: nat)
    requires Inv(max, s) && Enabled(max, true, s, ReadSome(r, n))
    ensures Inv(max, Apply(max, true, s, ReadSome(r, n)))
  {
    hide ValidId, IsTemp, ReportName, NameOk, SavingOk, TempOwned, Apart, DiskOk, Visible;
    var reader, all := s.readers[r], s.disk.content[s.readers[r].file];
    assert ReaderOk(s, reader);
    var got := reader.got + all[|reader.got|..|reader.got| + n];
    assert got == all[..|reader.got| + n];
    assert ReaderOk(s, reader.(got := got));
    ReadersChange(max, s, s.readers[r := reader.(got := got)], s.returned);
  }

  lemma AnswerKeeps(max: nat, s: System, r: nat)
    requires Inv(max, s) && Enabled(max, true, s, Answer(r))
    ensures Inv(max, Apply(max, true, s, Answer(r)))
  {
    var reader := s.readers[r];
    assert ReaderOk(s, reader);
    assert reader.got == s.disk.content[reader.file];
    ReadersChange(max, s, s.readers - {r}, s.returned + {Report(reader.id, reader.got)});
  }

  lemma StepKeepsInv(max: nat, s: System, step: Step)
    requires Inv(max, s) && Enabled(max, true, s, step)
    ensures Inv(max, Apply(max, true, s, step))
  {
    hide Inv;
    match step
    case Acquire(h) => AcquireKeeps(max, s, h);
    case Reject(h) =>
    case Abandon(h) => AbandonKeeps(max, s, h);
    case Create(h, id, doc, suffix) =>
      NamesDiffer(id, suffix);
      CreateKeeps(max, s, h, id, doc, TempName(suffix));
    case Write(h, n) => WriteKeeps(max, s, h, n);
    case Sync(h) => SyncKeeps(max, s, h);
    case Close(h) => CloseKeeps(max, s, h);
    case Fail(h) => AdvanceKeeps(max, s, h, Failed);
    case Rename(h) => RenameKeeps(max, s, h);
    case Remove(h) => RemoveKeeps(max, s, h);
    case RemoveFails(h) => RemoveFailsKeeps(max, s, h);
    case Release(h) => ReleaseKeeps(max, s, h);
    case Crash => CrashKeeps(max, s);
    case OpenReport(r, id) => OpenKeeps(max, s, r, id);
    case ReadSome(r, n) => ReadKeeps(max, s, r, n);
    case Answer(r) => AnswerKeeps(max, s, r);
  }

  // ----------------------------------------------------------------- over all runs

  lemma {:induction false} RunKeepsInv(max: nat, s: System, steps: seq<Step>, t: System)
    requires Inv(max, s) && Run(max, true, s, steps, t)
    ensures Inv(max, t)
    decreases |steps|
  {
    hide Inv, Enabled, Apply;
    if steps == [] {
    } else {
      StepKeepsInv(max, s, steps[0]);
      RunKeepsInv(max, Apply(max, true, s, steps[0]), steps[1..], t);
    }
  }

  lemma InitialInv(max: nat)
    ensures Inv(max, INITIAL)
  {
  }

  function LiveTemps(s: System): set<string> {
    set name | name in s.disk.dir && IsTemp(name)
  }

  lemma {:induction false} ImageAtMost(keys: set<nat>, handlers: map<nat, Handler>)
    requires keys <= handlers.Keys
    ensures |set h | h in keys && handlers[h].Saving? :: handlers[h].temp| <= |keys|
  {
    var image := set h | h in keys && handlers[h].Saving? :: handlers[h].temp;
    if keys == {} {
    } else {
      var h :| h in keys;
      var rest := set k | k in keys - {h} && handlers[k].Saving? :: handlers[k].temp;
      ImageAtMost(keys - {h}, handlers);
      assert image == rest + if handlers[h].Saving? then {handlers[h].temp} else {};
    }
  }

  /** In every interleaving of handlers, readers and crashes: a report name is there iff
      something was published under its id, and then leads to the last document renamed to
      it, whole; every answer of Get was published; no file a Get has open bears a temp
      name; the semaphore counts the handlers in flight, never more than the limit; and
      without crashes and failed removals there are no more temp files than handlers. */
  lemma ReportsAreAlwaysWhole(max: nat, steps: seq<Step>, t: System)
    requires Run(max, true, INITIAL, steps, t)
    ensures forall id :: ValidId(id) ==> (ReportName(id) in t.disk.dir <==> id in t.latest)
    ensures forall id :: ValidId(id) && ReportName(id) in t.disk.dir ==> Current(t, id, t.disk.dir[ReportName(id)])
    ensures t.returned <= t.published
    ensures forall r :: r in t.readers ==>
              && Whole(t, t.readers[r].id, t.readers[r].file) && t.readers[r].got <= t.disk.content[t.readers[r].file]
              && forall name :: name in t.disk.dir && t.disk.dir[name] == t.readers[r].file ==> !IsTemp(name)
    ensures t.slots == |t.handlers| <= max
    ensures t.orderly ==> |LiveTemps(t)| <= t.slots
  {
    hide Run, SavingOk, DiskOk, Apart, ValidId, IsTemp, ReportName;
    InitialInv(max);
    RunKeepsInv(max, INITIAL, steps, t);
    forall id | ValidId(id) && ReportName(id) in t.disk.dir ensures Current(t, id, t.disk.dir[ReportName(id)]) {
      CurrentUnderItsName(t, id);
    }
    forall r | r in t.readers ensures ReaderOk(t, t.readers[r]) { }
    if t.orderly { TempsAtMost(max, t); }
  }

  lemma TempsAtMost(max: nat, t: System)
    requires Inv(max, t) && t.orderly
    ensures |LiveTemps(t)| <= t.slots
  {
    hide SavingOk, ReaderOk, NameOk, DiskOk, Visible, Apart, IsTemp;
    var image := set h | h in t.handlers.Keys && t.handlers[h].Saving? :: t.handlers[h].temp;
    assert LiveTemps(t) <= image by {
      forall name | name in LiveTemps(t) ensures name in image { assert TempOwned(t, name); }
    }
    ImageAtMost(t.handlers.Keys, t.handlers);
    SubsetAtMost(LiveTemps(t), image);
    assert |t.handlers.Keys| == |t.handlers|;
  }

  lemma CurrentUnderItsName(t: System, id: string)
    requires ValidId(id) && ReportName(id) in t.disk.dir && NameOk(t, ReportName(id))
    ensures Current(t, id, t.disk.dir[ReportName(id)])
  {
    hide ValidId, IsTemp, ReportName, Current;
    NamesDiffer(id, "");
    var i :| ValidId(i) && ReportName(id) == ReportName(i) && Current(t, i, t.disk.dir[ReportName(id)]);
    ReportNameInjective(id, i);
  }

  // -------------------------------------------------- publications stay, and are read

  lemma StepOnlyPublishes(max: nat, s: System, step: Step)
    requires Enabled(max, true, s, step)
    ensures var t := Apply(max, true, s, step); s.published <= t.published && s.latest.Keys <= t.latest.Keys
  {
    hide ReportName, TempName;
  }

  lemma {:induction false} RunOnlyPublishes(max: nat, s: System, steps: seq<Step>, t: System)
    requires Run(max, true, s, steps, t)
    ensures s.published <= t.published && s.latest.Keys <= t.latest.Keys
    decreases |steps|
  {
    hide Enabled, Apply;
    if steps == [] {
    } else {
      StepOnlyPublishes(max, s, steps[0]);
      RunOnlyPublishes(max, Apply(max, true, s, steps[0]), steps[1..], t);
    }
  }

  /** What is visible in a run stays visible in all that follows it, crashes included:
      no removal, late or of a failed save, ever takes a report away. */
  lemma PublicationsStay(max: nat, before: seq<Step>, s: System, after: seq<Step>, t: System)
    requires Run(max, true, INITIAL, before, s) && Run(max, true, s, after, t)
    ensures s.published <= t.published
    ensures forall id :: ValidId(id) && ReportName(id) in s.disk.dir ==> ReportName(id) in t.disk.dir
  {
    hide Run, SavingOk, ReaderOk, NameOk, DiskOk, Apart, TempOwned, ValidId, IsTemp, ReportName, Current, Whole;
    InitialInv(max);
    RunKeepsInv(max, INITIAL, before, s);
    RunKeepsInv(max, s, after, t);
    RunOnlyPublishes(max, s, after, t);
    ReportsAreAlwaysWhole(max, before, s);
  }

  /** A run in which nothing is renamed to the id. */
  predicate Untouched(max: nat, s: System, steps: seq<Step>, id: string)
    decreases |steps|
  {
    steps == [] ||
    (Enabled(max, true, s, steps[0])
     && !(steps[0].Rename? && s.handlers[steps[0].h].id == id)
     && Untouched(max, Apply(max, true, s, steps[0]), steps[1..], id))
  }

  lemma StepLeavesLatest(max: nat, s: System, step: Step, id: string)
    requires Enabled(max, true, s, step) && id in s.latest
    requires !(step.Rename? && s.handlers[step.h].id == id)
    ensures var t := Apply(max, true, s, step); id in t.latest && t.latest[id] == s.latest[id]
  {
    hide ReportName, TempName;
  }

  lemma {:induction false} LatestStays(max: nat, s: System, steps: seq<Step>, t: System, id: string)
    requires Run(max, true, s, steps, t) && Untouched(max, s, steps, id) && id in s.latest
    ensures id in t.latest && t.latest[id] == s.latest[id]
    decreases |steps|
  {
    hide Enabled, Apply;
    if steps == [] {
    } else {
      StepLeavesLatest(max, s, steps[0], id);
      LatestStays(max, Apply(max, true, s, steps[0]), steps[1..], t, id);
    }
  }

  lemma ReaderFacts(max: nat, s: System, r: nat)
    requires Inv(max, s) && r in s.readers
    ensures ReaderOk(s, s.readers[r]) && DiskOk(s.disk)
  {
    hide ReaderOk, DiskOk;
  }

  /** The file a Get has open is neither renamed away from it nor written. */
  lemma StepKeepsReader(max: nat, s: System, step: Step, r: nat)
    requires Inv(max, s) && Enabled(max, true, s, step) && r in s.readers && step != Answer(r) && step != Crash
    ensures var t := Apply(max, true, s, step);
            && r in t.readers && t.readers[r].id == s.readers[r].id && t.readers[r].file == s.readers[r].file
            && s.readers[r].file in s.disk.content && s.readers[r].file in t.disk.content
            && t.disk.content[s.readers[r].file] == s.disk.content[s.readers[r].file]
  {
    hide ReportName, TempName, ValidId, IsTemp, Inv;
    ReaderFacts(max, s, r);
  }

  /** The reader goes on reading: it does not answer and the machine does not crash. */
  predicate Reading(steps: seq<Step>, r: nat) {
    forall i :: 0 <= i < |steps| ==> steps[i] != Answer(r) && steps[i] != Crash
  }

  lemma {:induction false} ReaderStays(max: nat, s: System, steps: seq<Step>, t: System, r: nat)
    requires Inv(max, s) && Run(max, true, s, steps, t) && r in s.readers && Reading(steps, r)
    ensures r in t.readers && t.readers[r].id == s.readers[r].id && t.readers[r].file == s.readers[r].file
    ensures s.readers[r].file in s.disk.content && s.readers[r].file in t.disk.content
    ensures t.disk.content[s.readers[r].file] == s.disk.content[s.readers[r].file]
    decreases |steps|
  {
    hide Enabled, Apply;
    if steps == [] {
      assert ReaderOk(s, s.readers[r]);
    } else {
      hide Inv;
      assert steps[0] != Answer(r) && steps[0] != Crash;
      StepKeepsReader(max, s, steps[0], r);
      StepKeepsInv(max, s, steps[0]);
      ReaderStays(max, Apply(max, true, s, steps[0]), steps[1..], t, r);
    }
  }

  lemma AnswerIsTheFile(max: nat, v: System, r: nat)
    requires Inv(max, v) && Enabled(max, true, v, Answer(r))
    ensures Apply(max, true, v, Answer(r)).returned ==
            v.returned + {Report(v.readers[r].id, v.disk.content[v.readers[r].file])}
  {
    hide Apart, SavingOk, NameOk, TempOwned, DiskOk, Visible, Whole;
    assert ReaderOk(v, v.readers[r]);
    assert v.readers[r].got == v.disk.content[v.readers[r].file];
  }

  lemma Opened(max: nat, u: System, r: nat, id: string)
    requires Enabled(max, true, u, OpenReport(r, id))
    ensures var w := Apply(max, true, u, OpenReport(r, id));
            && r in w.readers && w.readers[r].id == id && w.readers[r].file == u.disk.dir[ReportName(id)]
            && w.disk == u.disk && ValidId(id) && ReportName(id) in u.disk.dir
  {
    hide ReportName, ValidId;
  }

  lemma AnswerIsTheLatest(max: nat, u: System, r: nat, id: string, during: seq<Step>, v: System)
    requires Inv(max, u) && Enabled(max, true, u, OpenReport(r, id)) && Current(u, id, u.disk.dir[ReportName(id)])
    requires Run(max, true, Apply(max, true, u, OpenReport(r, id)), during, v)
    requires Reading(during, r) && Enabled(max, true, v, Answer(r))
    ensures Apply(max, true, v, Answer(r)).returned == v.returned + {Report(id, u.latest[id])}
  {
    Opened(max, u, r, id);
    StepKeepsInv(max, u, OpenReport(r, id));
    hide Run, ReportName, ValidId, Reading, Inv, Apply;
    var w := Apply(max, true, u, OpenReport(r, id));
    RunKeepsInv(max, w, during, v);
    ReaderStays(max, w, during, v, r);
    AnswerIsTheFile(max, v, r);
  }

  lemma RenamedInv(max: nat, s: System, h: nat)
    requires Inv(max, s) && Enabled(max, true, s, Rename(h))
    ensures Inv(max, Renaming(s, h))
    ensures var id, t := s.handlers[h].id, Renaming(s, h); id in t.latest && t.latest[id] == s.handlers[h].doc
  {
    hide Inv, ReportName;
    RenameKeeps(max, s, h);
  }

  lemma CurrentAfterRename(max: nat, s: System, h: nat, between: seq<Step>, u: System)
    requires Inv(max, s) && Enabled(max, true, s, Rename(h))
    requires Run(max, true, Renaming(s, h), between, u) && Untouched(max, Renaming(s, h), between, s.handlers[h].id)
    ensures var id := s.handlers[h].id;
            && Inv(max, u) && ValidId(id) && ReportName(id) in u.disk.dir && Current(u, id, u.disk.dir[ReportName(id)])
            && u.latest[id] == s.handlers[h].doc
  {
    hide Run, ReportName, ValidId, Untouched, Current, Inv, Renaming, Visible;
    RenamedInv(max, s, h);
    var id := s.handlers[h].id;
    RunKeepsInv(max, Renaming(s, h), between, u);
    LatestStays(max, Renaming(s, h), between, u, id);
    LatestIsThere(max, u, id);
  }

  lemma LatestIsThere(max: nat, u: System, id: string)
    requires Inv(max, u) && id in u.latest
    ensures ValidId(id) && ReportName(id) in u.disk.dir && Current(u, id, u.disk.dir[ReportName(id)])
  {
    hide ReportName, ValidId, IsTemp, SavingOk, TempOwned, Apart, Whole, Current, DiskOk, ReaderOk;
    assert NameOk(u, ReportName(id));
    CurrentUnderItsName(u, id);
  }

  lemma RenamingHandler(max: nat, s: System, h: nat)
    requires Enabled(max, true, s, Rename(h))
    ensures h in s.handlers && s.handlers[h].Saving? && s.handlers[h].temp in s.disk.dir
    ensures Apply(max, true, s, Rename(h)) == Renaming(s, h)
  {
    hide Renaming;
  }

  lemma CanBeOpened(max: nat, u: System, r: nat, id: string)
    requires r !in u.readers && ValidId(id) && ReportName(id) in u.disk.dir
    requires Current(u, id, u.disk.dir[ReportName(id)])
    ensures Enabled(max, true, u, OpenReport(r, id))
  {
    hide ReportName, ValidId;
  }

  /** On every run, a Get that finds a report when it opens answers the whole of the last
      document renamed to its id by then, whatever is renamed before or meanwhile. */
  lemma GetAnswersTheLatest(max: nat, before: seq<Step>, u: System, r: nat, id: string, during: seq<Step>, v: System)
    requires Run(max, true, INITIAL, before, u) && Enabled(max, true, u, OpenReport(r, id))
    requires Run(max, true, Apply(max, true, u, OpenReport(r, id)), during, v)
    requires Reading(during, r) && Enabled(max, true, v, Answer(r))
    ensures id in u.latest
    ensures Apply(max, true, v, Answer(r)).returned == v.returned + {Report(id, u.latest[id])}
  {
    Opened(max, u, r, id);
    InitialInv(max);
    hide Run, ReportName, ValidId, Inv, Apply, Reading, Enabled;
    RunKeepsInv(max, INITIAL, before, u);
    ReportsAreAlwaysWhole(max, before, u);
    AnswerIsTheLatest(max, u, r, id, during, v);
  }

  /** In particular a Get that opens after a rename, with no other rename to that id
      between, finds the report and answers the document of that rename. */
  lemma GetAnswersTheLastRename(max: nat, before: seq<Step>, s: System, h: nat, between: seq<Step>, u: System, r: nat)
    requires Run(max, true, INITIAL, before, s) && Enabled(max, true, s, Rename(h))
    requires Run(max, true, Renaming(s, h), between, u) && Untouched(max, Renaming(s, h), between, s.handlers[h].id)
    requires r !in u.readers
    ensures Enabled(max, true, u, OpenReport(r, s.handlers[h].id))
    ensures forall during, v ::
              Run(max, true, Apply(max, true, u, OpenReport(r, s.handlers[h].id)), during, v)
              && Reading(during, r) && Enabled(max, true, v, Answer(r)) ==>
                Apply(max, true, v, Answer(r)).returned == v.returned + {Report(s.handlers[h].id, s.handlers[h].doc)}
  {
    RenamingHandler(max, s, h);
    InitialInv(max);
    OneStep(max, true, s, Rename(h));
    hide Run, ReportName, ValidId, Inv, Apply, Untouched, Reading, Renaming, Enabled, Current;
    RunKeepsInv(max, INITIAL, before, s);
    CurrentAfterRename(max, s, h, between, u);
    RunConcat(max, true, s, [Rename(h)], Renaming(s, h), between, u);
    RunConcat(max, true, INITIAL, before, s, [Rename(h)] + between, u);
    var id := s.handlers[h].id;
    CanBeOpened(max, u, r, id);
    forall during, v | Run(max, true, Apply(max, true, u, OpenReport(r, id)), during, v)
                       && Reading(during, r) && Enabled(max, true, v, Answer(r))
      ensures Apply(max, true, v, Answer(r)).returned == v.returned + {Report(id, s.handlers[h].doc)}
    {
      GetAnswersTheLatest(max, before + ([Rename(h)] + between), u, r, id, during, v);
    }
  }

  // --------------------------------------------- one save is a run of one handler

  /** The contents under every name. */
  function Files(d: Disk): map<string, Bytes> {
    map name | name in d.dir && d.dir[name] in d.content :: d.content[d.dir[name]]
  }

  /** The steps of one save, from the handler's point of view. */
  function SaveSteps(h: nat, id: string, doc: Bytes, suffix: string, fault: Fault, removeFails: bool): seq<Step> {
    if !ValidId(id) || fault.AtCreate? then [Abandon(h)]
    else
      [Create(h, id, doc, suffix)] + WriteSteps(h, |doc|, fault) + [if removeFails then RemoveFails(h) else Remove(h)]
  }

  function WriteSteps(h: nat, length: nat, fault: Fault): seq<Step> {
    match fault
    case AtChmod => [Fail(h)]
    case AtWrite(written) => [Write(h, if written < length then written else length), Fail(h)]
    case AtSync => [Write(h, length), Fail(h)]
    case AtClose => [Write(h, length), Sync(h), Fail(h)]
    case AtRename => [Write(h, length), Sync(h), Close(h), Fail(h)]
    case _ => [Write(h, length), Sync(h), Close(h), Rename(h)]
  }

  /** In the middle of a save that began in s: n bytes written. */
  function Staged(s: System, h: nat, id: string, doc: Bytes, temp: string, n: nat, stage: Stage): System
    requires n <= |doc|
  {
    var file := s.disk.next;
    s.(disk := Disk(s.disk.dir[temp := file], s.disk.content[file := doc[..n]], file + 1),
       handlers := s.handlers[h := Saving(id, doc, temp, file, stage)], used := s.used + {temp})
  }

  /** The save may start here. */
  predicate MayStart(s: System, h: nat, id: string, temp: string) {
    DiskOk(s.disk) && CanCreate(s, h, id, temp)
  }

  lemma FilesStaged(s: System, h: nat, id: string, doc: Bytes, temp: string, n: nat, stage: Stage)
    requires MayStart(s, h, id, temp) && n <= |doc|
    ensures Files(Staged(s, h, id, doc, temp, n, stage).disk) == Files(s.disk)[temp := doc[..n]]
  {
    hide ValidId, IsTemp;
  }

  lemma FilesRestored(s: System, h: nat, id: string, doc: Bytes, temp: string, n: nat, stage: Stage)
    requires MayStart(s, h, id, temp) && n <= |doc|
    ensures var d := Staged(s, h, id, doc, temp, n, stage).disk;
            Files(d.(dir := d.dir - {temp})) == Files(s.disk)
  {
    hide ValidId, IsTemp;
    var d := Staged(s, h, id, doc, temp, n, stage).disk;
    assert d.dir - {temp} == s.disk.dir;
  }

  lemma CreateStages(max: nat, s: System, h: nat, id: string, doc: Bytes, suffix: string)
    requires MayStart(s, h, id, TempName(suffix))
    ensures Run(max, true, s, [Create(h, id, doc, suffix)], Staged(s, h, id, doc, TempName(suffix), 0, Writing))
  {
    OneStep(max, true, s, Create(h, id, doc, suffix));
    assert Apply(max, true, s, Create(h, id, doc, suffix)) == Staged(s, h, id, doc, TempName(suffix), 0, Writing);
  }

  lemma WriteStages(max: nat, s: System, h: nat, id: string, doc: Bytes, temp: string, n: nat)
    requires n <= |doc|
    ensures Run(max, true, Staged(s, h, id, doc, temp, 0, Writing), [Write(h, n)],
                Staged(s, h, id, doc, temp, n, Writing))
  {
    var t := Staged(s, h, id, doc, temp, 0, Writing);
    OneStep(max, true, t, Write(h, n));
    assert [] + doc[0..n] == doc[..n];
    assert Apply(max, true, t, Write(h, n)).disk.content == Staged(s, h, id, doc, temp, n, Writing).disk.content;
  }

  /** Sync, close and fail only move the handler on. */
  lemma StageMoves(max: nat, s: System, h: nat, id: string, doc: Bytes, temp: string, n: nat, stage: Stage, step: Step,
                   next: Stage)
    requires n <= |doc|
    requires || (step == Sync(h) && stage.Writing? && n == |doc| && next.Synced?)
             || (step == Close(h) && stage.Synced? && next.Closed?)
             || (step == Fail(h) && stage in {Writing, Synced, Closed} && next.Failed?)
    ensures Run(max, true, Staged(s, h, id, doc, temp, n, stage), [step], Staged(s, h, id, doc, temp, n, next))
  {
    var t := Staged(s, h, id, doc, temp, n, stage);
    OneStep(max, true, t, step);
    assert Apply(max, true, t, step).handlers == Staged(s, h, id, doc, temp, n, next).handlers;
  }

  lemma ToClosed(max: nat, s: System, h: nat, id: string, doc: Bytes, temp: string)
    ensures var start := Staged(s, h, id, doc, temp, 0, Writing);
            && Run(max, true, start, [Write(h, |doc|)], Staged(s, h, id, doc, temp, |doc|, Writing))
            && Run(max, true, start, [Write(h, |doc|), Sync(h)], Staged(s, h, id, doc, temp, |doc|, Synced))
            && Run(max, true, start, [Write(h, |doc|), Sync(h), Close(h)], Staged(s, h, id, doc, temp, |doc|, Closed))
  {
    hide Run, Staged;
    var start := Staged(s, h, id, doc, temp, 0, Writing);
    var n := |doc|;
    WriteStages(max, s, h, id, doc, temp, n);
    StageMoves(max, s, h, id, doc, temp, n, Writing, Sync(h), Synced);
    StageMoves(max, s, h, id, doc, temp, n, Synced, Close(h), Closed);
    RunConcat(max, true, start, [Write(h, n)], Staged(s, h, id, doc, temp, n, Writing),
              [Sync(h)], Staged(s, h, id, doc, temp, n, Synced));
    assert [Write(h, n)] + [Sync(h)] == [Write(h, n), Sync(h)];
    RunConcat(max, true, start, [Write(h, n), Sync(h)], Staged(s, h, id, doc, temp, n, Synced),
              [Close(h)], Staged(s, h, id, doc, temp, n, Closed));
    assert [Write(h, n), Sync(h)] + [Close(h)] == [Write(h, n), Sync(h), Close(h)];
  }

  /** A failing save reaches its removal with what it has written in the temp file. */
  lemma ToFailed(max: nat, s: System, h: nat, id: string, doc: Bytes, temp: string, fault: Fault) returns (n: nat)
    requires !fault.NoFault? && !fault.AtCreate?
    ensures n <= |doc| && doc[..n] == Written(doc, fault)
    ensures Run(max, true, Staged(s, h, id, doc, temp, 0, Writing), WriteSteps(h, |doc|, fault),
                Staged(s, h, id, doc, temp, n, Failed))
  {
    hide Run, Staged;
    var start := Staged(s, h, id, doc, temp, 0, Writing);
    ToClosed(max, s, h, id, doc, temp);
    n := if fault.AtChmod? then 0 else if fault.AtWrite? && fault.written < |doc| then fault.written else |doc|;
    assert doc[..|doc|] == doc;
    if fault.AtChmod? {
      StageMoves(max, s, h, id, doc, temp, 0, Writing, Fail(h), Failed);
    } else if fault.AtWrite? || fault.AtSync? {
      WriteStages(max, s, h, id, doc, temp, n);
      StageMoves(max, s, h, id, doc, temp, n, Writing, Fail(h), Failed);
      RunConcat(max, true, start, [Write(h, n)], Staged(s, h, id, doc, temp, n, Writing),
                [Fail(h)], Staged(s, h, id, doc, temp, n, Failed));
      assert [Write(h, n)] + [Fail(h)] == WriteSteps(h, |doc|, fault);
    } else if fault.AtClose? {
      StageMoves(max, s, h, id, doc, temp, n, Synced, Fail(h), Failed);
      RunConcat(max, true, start, [Write(h, n), Sync(h)], Staged(s, h, id, doc, temp, n, Synced),
                [Fail(h)], Staged(s, h, id, doc, temp, n, Failed));
      assert [Write(h, n), Sync(h)] + [Fail(h)] == WriteSteps(h, |doc|, fault);
    } else {
      StageMoves(max, s, h, id, doc, temp, n, Closed, Fail(h), Failed);
      RunConcat(max, true, start, [Write(h, n), Sync(h), Close(h)], Staged(s, h, id, doc, temp, n, Closed),
                [Fail(h)], Staged(s, h, id, doc, temp, n, Failed));
      assert [Write(h, n), Sync(h), Close(h)] + [Fail(h)] == WriteSteps(h, |doc|, fault);
    }
  }

  lemma ToRenamed(max: nat, s: System, h: nat, id: string, doc: Bytes, temp: string)
    ensures Renaming.requires(Staged(s, h, id, doc, temp, |doc|, Closed), h)
    ensures Run(max, true, Staged(s, h, id, doc, temp, 0, Writing), WriteSteps(h, |doc|, NoFault),
                Renaming(Staged(s, h, id, doc, temp, |doc|, Closed), h))
  {
    var start, closed := Staged(s, h, id, doc, temp, 0, Writing), Staged(s, h, id, doc, temp, |doc|, Closed);
    OneStep(max, true, closed, Rename(h));
    RenamingHandler(max, closed, h);
    hide Run, Staged, Renaming, Apply;
    ToClosed(max, s, h, id, doc, temp);
    RunConcat(max, true, start, [Write(h, |doc|), Sync(h), Close(h)], closed, [Rename(h)], Renaming(closed, h));
    assert [Write(h, |doc|), Sync(h), Close(h)] + [Rename(h)] == WriteSteps(h, |doc|, NoFault);
  }

  lemma RenamedDir(s: System, h: nat, id: string, doc: Bytes, temp: string)
    requires MayStart(s, h, id, temp)
    ensures var t := Renaming(Staged(s, h, id, doc, temp, |doc|, Closed), h);
            && t.disk.dir == t.disk.dir - {temp} == s.disk.dir[ReportName(id) := s.disk.next]
            && t.disk.content == s.disk.content[s.disk.next := doc]
            && SavingAt(t, h, {Renamed, Failed}) && t.handlers[h].temp == temp
            && t.handlers[h := Finishing] == s.handlers[h := Finishing]
  {
    hide ValidId, IsTemp, ReportName, DiskOk;
    NotTemp(id, temp);
    assert doc[..|doc|] == doc;
  }

  lemma FilesWith(d: Disk, name: string, doc: Bytes)
    requires DiskOk(d)
    ensures Files(Disk(d.dir[name := d.next], d.content[d.next := doc], d.next + 1)) == Files(d)[name := doc]
  {
  }

  lemma FilesRenamed(s: System, h: nat, id: string, doc: Bytes, temp: string)
    requires MayStart(s, h, id, temp)
    ensures var t := Renaming(Staged(s, h, id, doc, temp, |doc|, Closed), h);
            && Files(t.disk) == Files(t.disk.(dir := t.disk.dir - {temp})) == Files(s.disk)[ReportName(id) := doc]
            && SavingAt(t, h, {Renamed, Failed}) && t.handlers[h].temp == temp
            && t.handlers[h := Finishing] == s.handlers[h := Finishing]
  {
    RenamedDir(s, h, id, doc, temp);
    FilesWith(s.disk, ReportName(id), doc);
    hide CanCreate, ReportName, DiskOk, Files;
  }

  function Last(h: nat, removeFails: bool): Step {
    if removeFails then RemoveFails(h) else Remove(h)
  }

  lemma LastStep(max: nat, t: System, h: nat, removeFails: bool)
    requires SavingAt(t, h, {Renamed, Failed})
    ensures Enabled(max, true, t, Last(h, removeFails))
    ensures var u := Apply(max, true, t, Last(h, removeFails));
            && Run(max, true, t, [Last(h, removeFails)], u)
            && u.handlers == t.handlers[h := Finishing]
            && u.disk == if removeFails then t.disk else t.disk.(dir := t.disk.dir - {t.handlers[h].temp})
  {
    OneStep(max, true, t, Last(h, removeFails));
  }

  lemma AbandonRun(max: nat, s: System, h: nat)
    requires h in s.handlers && s.handlers[h].Auditing?
    ensures Run(max, true, s, [Abandon(h)], s.(handlers := s.handlers[h := Finishing]))
  {
    OneStep(max, true, s, Abandon(h));
  }

  /** Every outcome of Save, whichever step fails and whether or not the removal does, is
      where a run of the steps of one handler ends, from any state in which it may start. */
  lemma SaveIsARun(max: nat, s: System, h: nat, id: string, doc: Bytes, suffix: string, fault: Fault, removeFails: bool)
    returns (t: System)
    requires Inv(max, s) && h in s.handlers && s.handlers[h].Auditing? && TempName(suffix) !in s.used
    ensures Run(max, true, s, SaveSteps(h, id, doc, suffix, fault, removeFails), t)
    ensures Files(t.disk) == FilesAfter(Files(s.disk), id, doc, suffix, fault, removeFails)
    ensures t.handlers == s.handlers[h := Finishing]
  {
    var temp := TempName(suffix);
    if !ValidId(id) || fault.AtCreate? {
      AbandonRun(max, s, h);
      t := s.(handlers := s.handlers[h := Finishing]);
    } else {
      UnusedMayStart(max, s, h, id, suffix);
      hide Inv, ValidId, TempName, ReportName, Run, Staged, WriteSteps, Enabled, Apply, MayStart, Renaming, Files;
      CreateStages(max, s, h, id, doc, suffix);
      var start, middle := Staged(s, h, id, doc, temp, 0, Writing), WriteSteps(h, |doc|, fault);
      var u: System;
      if fault.NoFault? {
        ToRenamed(max, s, h, id, doc, temp);
        FilesRenamed(s, h, id, doc, temp);
        u := Renaming(Staged(s, h, id, doc, temp, |doc|, Closed), h);
      } else {
        var n := ToFailed(max, s, h, id, doc, temp, fault);
        FilesStaged(s, h, id, doc, temp, n, Failed);
        FilesRestored(s, h, id, doc, temp, n, Failed);
        StagedFailed(s, h, id, doc, temp, n);
        u := Staged(s, h, id, doc, temp, n, Failed);
      }
      LastStep(max, u, h, removeFails);
      t := Apply(max, true, u, Last(h, removeFails));
      RunConcat(max, true, s, [Create(h, id, doc, suffix)], start, middle, u);
      RunConcat(max, true, s, [Create(h, id, doc, suffix)] + middle, u, [Last(h, removeFails)], t);
    }
  }

  lemma StagedFailed(s: System, h: nat, id: string, doc: Bytes, temp: string, n: nat)
    requires n <= |doc|
    ensures var t := Staged(s, h, id, doc, temp, n, Failed);
            && SavingAt(t, h, {Renamed, Failed}) && t.handlers[h].temp == temp
            && t.handlers[h := Finishing] == s.handlers[h := Finishing]
  {
  }

  lemma UnusedMayStart(max: nat, s: System, h: nat, id: string, suffix: string)
    requires Inv(max, s) && h in s.handlers && s.handlers[h].Auditing? && TempName(suffix) !in s.used && ValidId(id)
    ensures MayStart(s, h, id, TempName(suffix))
  {
    hide SavingOk, ReaderOk, TempOwned, Apart, Visible, DiskOk, ReportName, ValidId, Current;
    NamesDiffer(id, suffix);
    if TempName(suffix) in s.disk.dir {
      assert NameOk(s, TempName(suffix));
      var i :| ValidId(i) && TempName(suffix) == ReportName(i) && Current(s, i, s.disk.dir[TempName(suffix)]);
      NotTemp(i, TempName(suffix));
      assert false;
    }
  }

  // ------------------------------------------------- why temp names must not recur

  lemma OneMore(max: nat, steps: seq<Step>, s: System, step: Step) returns (more: seq<Step>, t: System)
    requires Run(max, false, INITIAL, steps, s) && Enabled(max, false, s, step)
    ensures more == steps + [step] && t == Apply(max, false, s, step)
    ensures Run(max, false, INITIAL, more, t)
  {
    OneStep(max, false, s, step);
    more, t := steps + [step], Apply(max, false, s, step);
    RunConcat(max, false, INITIAL, steps, s, [step], t);
  }

  /** The first handler has published and not yet run its deferred removal. */
  function Published(a: string, temp: string): System {
    System(Disk(map[ReportName(a) := 0], map[0 := []], 1), map[0 := Saving(a, [], temp, 0, Renamed)], 1,
           map[], {temp}, {Report(a, [])}, map[a := []], {}, true)
  }

  function Started(a: string, temp: string): System {
    System(Disk(map[temp := 0], map[0 := []], 1), map[0 := Saving(a, [], temp, 0, Writing)], 1,
           map[], {temp}, {}, map[], {}, true)
  }

  lemma StartFirst(a: string, suffix: string) returns (steps: seq<Step>)
    requires ValidId(a)
    ensures Run(3, false, INITIAL, steps, Started(a, TempName(suffix)))
  {
    hide Run, ValidId, TempName, ReportName;
    EmptyRun();
    var t: System;
    steps, t := OneMore(3, [], INITIAL, Acquire(0));
    steps, t := OneMore(3, steps, t, Create(0, a, [], suffix));
    assert t == Started(a, TempName(suffix));
  }

  lemma PublishFirst(a: string, suffix: string) returns (steps: seq<Step>)
    requires ValidId(a)
    ensures Run(3, false, INITIAL, steps, Published(a, TempName(suffix)))
  {
    hide Run, ValidId, TempName, ReportName;
    steps := StartFirst(a, suffix);
    var t := Started(a, TempName(suffix));
    steps, t := OneMore(3, steps, t, Sync(0));
    steps, t := OneMore(3, steps, t, Close(0));
    steps, t := OneMore(3, steps, t, Rename(0));
    assert t == Published(a, TempName(suffix));
  }

  function SecondStarted(a: string, b: string, doc: Bytes, temp: string): System {
    System(Disk(map[ReportName(a) := 0, temp := 1], map[0 := [], 1 := []], 2),
           map[0 := Saving(a, [], temp, 0, Renamed), 1 := Saving(b, doc, temp, 1, Writing)], 2,
           map[], {temp}, {Report(a, [])}, map[a := []], {}, true)
  }

  /** A second handler has written a complete temp file under the same name. */
  function SecondWritten(a: string, b: string, doc: Bytes, temp: string, stage: Stage): System {
    System(Disk(map[ReportName(a) := 0, temp := 1], map[0 := [], 1 := doc], 2),
           map[0 := Saving(a, [], temp, 0, Renamed), 1 := Saving(b, doc, temp, 1, stage)], 2,
           map[], {temp}, {Report(a, [])}, map[a := []], {}, true)
  }

  lemma StartSecond(a: string, b: string, doc: Bytes, suffix: string) returns (steps: seq<Step>)
    requires ValidId(a) && ValidId(b)
    ensures Run(3, false, INITIAL, steps, SecondStarted(a, b, doc, TempName(suffix)))
  {
    hide Run, ValidId, TempName, ReportName;
    NamesDiffer(a, suffix);
    NotTempNamed(a, TempName(suffix));
    steps := PublishFirst(a, suffix);
    var t := Published(a, TempName(suffix));
    steps, t := OneMore(3, steps, t, Acquire(1));
    steps, t := OneMore(3, steps, t, Create(1, b, doc, suffix));
    assert t == SecondStarted(a, b, doc, TempName(suffix));
  }

  lemma WriteSecond(a: string, b: string, doc: Bytes, suffix: string) returns (steps: seq<Step>)
    requires ValidId(a) && ValidId(b)
    ensures Run(3, false, INITIAL, steps, SecondWritten(a, b, doc, TempName(suffix), Writing))
  {
    hide Run, ValidId, TempName, ReportName;
    steps := StartSecond(a, b, doc, suffix);
    var t := SecondStarted(a, b, doc, TempName(suffix));
    steps, t := OneMore(3, steps, t, Write(1, |doc|));
    assert [] + doc[0..|doc|] == doc;
    assert t == SecondWritten(a, b, doc, TempName(suffix), Writing);
  }

  lemma CloseSecond(a: string, b: string, doc: Bytes, suffix: string) returns (steps: seq<Step>)
    requires ValidId(a) && ValidId(b)
    ensures Run(3, false, INITIAL, steps, SecondWritten(a, b, doc, TempName(suffix), Closed))
  {
    hide Run, ValidId, TempName, ReportName;
    steps := WriteSecond(a, b, doc, suffix);
    var t := SecondWritten(a, b, doc, TempName(suffix), Writing);
    steps, t := OneMore(3, steps, t, Sync(1));
    steps, t := OneMore(3, steps, t, Close(1));
    assert t.handlers == SecondWritten(a, b, doc, TempName(suffix), Closed).handlers;
  }

  /** If a temp name may be used again, the deferred removal of one handler can take
      away the file of another, whose rename then publishes a third one's empty file. */
  lemma ReusedTempNamesTearReports(a: string, b: string, doc: Bytes, suffix: string)
    returns (steps: seq<Step>, t: System)
    requires ValidId(a) && ValidId(b) && a != b && doc != []
    ensures Run(3, false, INITIAL, steps, t)
    ensures ReportName(b) in t.disk.dir && !Whole(t, b, t.disk.dir[ReportName(b)])
  {
    hide Run, ValidId, TempName, ReportName;
    NamesDiffer(a, suffix);
    steps := CloseSecond(a, b, doc, suffix);
    t := SecondWritten(a, b, doc, TempName(suffix), Closed);
    steps, t := OneMore(3, steps, t, Remove(0));
    steps, t := OneMore(3, steps, t, Acquire(2));
    steps, t := OneMore(3, steps, t, Create(2, a, doc, suffix));
    steps, t := OneMore(3, steps, t, Rename(1));
    assert t.disk.content[t.disk.dir[ReportName(b)]] == [];
    assert t.published == {Report(a, []), Report(b, doc)};
  }

  lemma EmptyRun()
    ensures Run(3, false, INITIAL, [], INITIAL)
  {
  }

  // ------------------------------------------------------------ the names themselves

  /** Report ids are 32 lower-case hexadecimal digits. */
  lemma IdsAre(id: string)
    ensures ValidId(id) <==> |id| == 32 && forall i :: 0 <= i < |id| ==> id[i] in "0123456789abcdef"
  {
    HexDigitsAre();
    forall c: char ensures IsIdChar(c) <==> c in "0123456789abcdef" {
      if IsIdChar(c) {
        var i := if c <= '9' then c as int - 48 else c as int - 87;
        assert "0123456789abcdef"[i] == c;
      }
    }
  }

  lemma HexDigitsAre()
    ensures forall i :: 0 <= i < 10 ==> "0123456789abcdef"[i] == (48 + i) as char
    ensures forall i :: 10 <= i < 16 ==> "0123456789abcdef"[i] == (87 + i) as char
  {
  }

  /** The two kinds of names, and that no report is ever named like a temp file. */
  lemma NamesAre(id: string, suffix: string)
    ensures ReportName(id) == id + ".json" && TempName(suffix) == ".report-" + suffix
    ensures ValidId(id) ==> ReportName(id) != TempName(suffix)
  {
    NamesDiffer(id, suffix);
  }
}
