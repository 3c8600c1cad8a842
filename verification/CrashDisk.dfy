/** The disk that save_bytes_atomic of storage.rs works on, and what its calls keep of it. */
module CrashDisk {
  import opened Text

  // ---------------------------------------------------------------------------
  // A disk that can lose power
  // ---------------------------------------------------------------------------

  type Ino = nat

  /** A file is empty, holds the text of a whole value, or holds something that does not parse. */
  datatype Content<V> = Empty | Torn | Whole(value: V)

  /** `data` is what the running system reads from each file, and `synced` the files whose data has reached the
      medium. The two names point to files; `finals` is what the final name may point to after a power loss. */
  datatype Disk<V> = Disk(data: map<Ino, Content<V>>, synced: set<Ino>, tmp: Option<Ino>, final: Option<Ino>,
                          finals: set<Option<Ino>>, next: Ino)

  /** File::create: a new file, or the old temporary file cut to nothing. */
  function CreateTmp<V>(d: Disk<V>): (r: Disk<V>)
    ensures r.tmp.Some?
  {
    match d.tmp
    case Some(i) => d.(data := d.data[i := Empty], synced := d.synced - {i})
    case None =>
      d.(data := d.data[d.next := Empty], synced := d.synced - {d.next}, tmp := Some(d.next), next := d.next + 1)
  }

  function PutContent<V>(d: Disk<V>, i: Ino, c: Content<V>): Disk<V> {
    d.(data := d.data[i := c], synced := d.synced - {i})
  }

  /** A write into an empty file gives the value; into any other it leaves `mixed`. */
  function WriteFile<V>(d: Disk<V>, i: Ino, v: V, mixed: Content<V>): Disk<V> {
    PutContent(d, i, if i in d.data && d.data[i].Empty? then Whole(v) else mixed)
  }

  function SyncFile<V>(d: Disk<V>, i: Ino): Disk<V> {
    d.(synced := d.synced + {i})
  }

  /** The new name is in place at once, but may still be lost. */
  function RenameTmp<V>(d: Disk<V>): Disk<V> {
    d.(final := d.tmp, tmp := None, finals := d.finals + {d.tmp})
  }

  function SyncDir<V>(d: Disk<V>): Disk<V> {
    d.(finals := {d.final})
  }

  datatype Loaded<V> = Value(value: V) | ParseError

  /** A missing file is the default value. */
  function ReadFinal<V>(d: Disk<V>, default: V): Loaded<V> {
    match d.final
    case None => Value(default)
    case Some(i) =>
      if i in d.data && d.data[i].Whole? then Value(d.data[i].value) else ParseError
  }

  /** What a power loss may leave: one of the possible names, any leftover temporary name, and any content in
      the files that were not synced. */
  predicate MaySurvive<V(==)>(d: Disk<V>, d': Disk<V>) {
    && d'.final in d.finals
    && (d'.tmp == None || d'.tmp != d'.final)
    && d'.finals == {d'.final}
    && d'.next == d.next && d'.data.Keys == d.data.Keys && d'.synced == d.data.Keys
    && (d'.tmp.Some? ==> d'.tmp.value in d.data)
    && (forall i :: i in d.synced && i in d.data ==> d'.data[i] == d.data[i])
  }

  ghost predicate MayComeBack<V(!new)>(d: Disk<V>, back: Loaded<V>, default: V) {
    exists left :: MaySurvive(d, left) && ReadFinal(left, default) == back
  }

  // ---------------------------------------------------------------------------
  // One save
  // ---------------------------------------------------------------------------

  /** The file system calls of save_bytes_atomic in order, and the update of the cache behind them. */
  datatype Point = Creating | Writing | SyncingFile | Renaming | SyncingDir | Publishing

  /** A save of v, made from the value that ends the line `from`, and the file it has opened, which matters once it is
      past Creating. A line is the history of a value: the value it grew from comes first, it comes last. */
  datatype Save<V> = Save(from: seq<V>, v: V, at: Point, file: Ino)

  /** One call; `ok` says whether it succeeds. A failed call ends the save, and a failed write leaves `mixed`. */
  function SaveStep<V>(d: Disk<V>, s: Save<V>, ok: bool, mixed: Content<V>): (Disk<V>, Option<Save<V>>) {
    if !ok then (if s.at.Writing? then PutContent(d, s.file, mixed) else d, None)
    else match s.at
      case Creating => (CreateTmp(d), Some(s.(at := Writing, file := CreateTmp(d).tmp.value)))
      case Writing => (WriteFile(d, s.file, s.v, mixed), Some(s.(at := SyncingFile)))
      case SyncingFile => (SyncFile(d, s.file), Some(s.(at := Renaming)))
      case Renaming => if d.tmp.Some? then (RenameTmp(d), Some(s.(at := SyncingDir))) else (d, None)
      case SyncingDir => (SyncDir(d), Some(s.(at := Publishing)))
      case Publishing => (d, None)
  }

  /** The values that may be found after a power loss: first the one the last successful directory sync put in
      place, then those renamed since. */
  function PossibleAfter<V>(possible: seq<V>, d: Disk<V>, s: Save<V>, ok: bool): seq<V>
    requires possible != []
  {
    if ok && s.at.Renaming? && d.tmp.Some? then possible + [s.v]
    else if ok && s.at.SyncingDir? then [Last(possible)]
    else possible
  }

  /** The name c leads to the whole value v, and to data that is on the medium. */
  predicate Leads<V(==)>(d: Disk<V>, c: Option<Ino>, v: V, default: V) {
    match c
    case None => v == default
    case Some(i) => i in d.data && i in d.synced && d.data[i] == Whole(v)
  }

  /** The temporary file is none that the final name may point to. */
  predicate Sound<V(==)>(d: Disk<V>) {
    && d.final in d.finals
    && (d.tmp.Some? ==> d.tmp !in d.finals && d.tmp.value in d.data)
    && (forall i :: i in d.data ==> i < d.next)
    && (forall c :: c in d.finals && c.Some? ==> c.value < d.next)
  }

  /** Every name the disk may come back with leads to a possible value. */
  predicate NamesLead<V(==)>(d: Disk<V>, possible: seq<V>, default: V) {
    forall c {:trigger LeadsToOne(d, c, possible, default)} :: c in d.finals ==> LeadsToOne(d, c, possible, default)
  }

  /** Every possible value has such a name. */
  predicate AllAreLedTo<V(==)>(d: Disk<V>, possible: seq<V>, default: V) {
    forall k {:trigger IsLedTo(d, possible[k], default)} :: 0 <= k < |possible| ==> IsLedTo(d, possible[k], default)
  }

  predicate LeadsToOne<V(==)>(d: Disk<V>, c: Option<Ino>, possible: seq<V>, default: V) {
    exists k :: 0 <= k < |possible| && Leads(d, c, possible[k], default)
  }

  predicate IsLedTo<V(==)>(d: Disk<V>, v: V, default: V) {
    exists c :: c in d.finals && Leads(d, c, v, default)
  }

  /** The names the disk may come back with lead to exactly the possible values, and the current one to the last. */
  predicate Names<V(==)>(d: Disk<V>, possible: seq<V>, default: V) {
    && possible != [] && Leads(d, d.final, Last(possible), default)
    && NamesLead(d, possible, default) && AllAreLedTo(d, possible, default)
  }

  /** A save before its rename owns the temporary file. */
  predicate Ready<V(==)>(d: Disk<V>, s: Save<V>) {
    match s.at
    case Writing => d.tmp == Some(s.file) && s.file in d.data && d.data[s.file].Empty?
    case SyncingFile => d.tmp == Some(s.file) && s.file in d.data && d.data[s.file] == Whole(s.v)
    case Renaming => d.tmp == Some(s.file) && Leads(d, d.tmp, s.v, s.v)
    case _ => true
  }

  /** The rename is still ahead. */
  predicate Pending<V>(s: Save<V>) {
    !s.at.SyncingDir? && !s.at.Publishing?
  }

  /** The name c reads as before. */
  predicate SameFile<V(==)>(d: Disk<V>, d': Disk<V>, c: Option<Ino>) {
    c.Some? && c.value in d.data ==>
      && c.value in d'.data && d'.data[c.value] == d.data[c.value]
      && (c.value in d.synced ==> c.value in d'.synced)
  }

  /** The names are the same, and each reads as before. */
  predicate LooksTheSame<V(==)>(d: Disk<V>, d': Disk<V>) {
    && d'.final == d.final && d.final in d.finals && d'.finals == d.finals
    && forall c :: c in d.finals ==> SameFile(d, d', c)
  }

  lemma SameFileLeads<V>(d: Disk<V>, d': Disk<V>, c: Option<Ino>, v: V, default: V)
    requires SameFile(d, d', c) && Leads(d, c, v, default)
    ensures Leads(d', c, v, default)
  {
  }

  lemma SameNamesLead<V>(d: Disk<V>, d': Disk<V>, possible: seq<V>, default: V)
    requires NamesLead(d, possible, default) && LooksTheSame(d, d')
    ensures NamesLead(d', possible, default)
  {
    forall c | c in d'.finals ensures LeadsToOne(d', c, possible, default) {
      assert LeadsToOne(d, c, possible, default);
      var k :| 0 <= k < |possible| && Leads(d, c, possible[k], default);
      SameFileLeads(d, d', c, possible[k], default);
    }
  }

  lemma SameAreLedTo<V>(d: Disk<V>, d': Disk<V>, possible: seq<V>, default: V)
    requires AllAreLedTo(d, possible, default) && LooksTheSame(d, d')
    ensures AllAreLedTo(d', possible, default)
  {
    forall k | 0 <= k < |possible| ensures IsLedTo(d', possible[k], default) {
      assert IsLedTo(d, possible[k], default);
      var c :| c in d.finals && Leads(d, c, possible[k], default);
      SameFileLeads(d, d', c, possible[k], default);
    }
  }

  lemma RenameAddsOne<V>(d: Disk<V>, v: V, possible: seq<V>, default: V)
    requires Sound(d) && Names(d, possible, default) && d.tmp.Some? && Leads(d, d.tmp, v, default)
    ensures Sound(RenameTmp(d)) && Names(RenameTmp(d), possible + [v], default)
  {
    var d', all := RenameTmp(d), possible + [v];
    assert Leads(d', d'.final, all[|possible|], default);
    forall c | c in d'.finals ensures LeadsToOne(d', c, all, default) {
      if c in d.finals {
        assert LeadsToOne(d, c, possible, default);
        var k :| 0 <= k < |possible| && Leads(d, c, possible[k], default);
        assert Leads(d', c, all[k], default);
      }
    }
    forall k | 0 <= k < |all| ensures IsLedTo(d', all[k], default) {
      if k < |possible| {
        assert IsLedTo(d, possible[k], default);
        var c :| c in d.finals && Leads(d, c, possible[k], default);
        assert c in d'.finals && Leads(d', c, all[k], default);
      }
    }
  }

  lemma SyncDirLeavesOne<V>(d: Disk<V>, possible: seq<V>, default: V)
    requires Sound(d) && Names(d, possible, default)
    ensures Sound(SyncDir(d)) && Names(SyncDir(d), [Last(possible)], default)
  {
    assert Leads(SyncDir(d), d.final, [Last(possible)][0], default);
  }

  /** Creating, filling and syncing the temporary file, or failing to, touches no file that may come back. */
  lemma TmpStepDoesNotShow<V>(d: Disk<V>, s: Save<V>, ok: bool, mixed: Content<V>)
    requires Sound(d) && Ready(d, s) && (ok ==> s.at.Creating? || s.at.Writing? || s.at.SyncingFile?)
    ensures var (d', s') := SaveStep(d, s, ok, mixed);
      && Sound(d') && LooksTheSame(d, d') && s'.Some? == ok
      && (s'.Some? ==> Ready(d', s'.value))
  {
    assert d.next !in d.data;
  }

  /** A save that owns the temporary file keeps what is known of the disk, whatever fails. */
  lemma SaveStepKeepsNames<V>(d: Disk<V>, s: Save<V>, ok: bool, mixed: Content<V>, possible: seq<V>, default: V)
    requires Sound(d) && Names(d, possible, default) && Ready(d, s) && !s.at.Publishing?
    ensures var (d', s') := SaveStep(d, s, ok, mixed);
      && Sound(d') && Names(d', PossibleAfter(possible, d, s, ok), default)
      && s'.Some? == ok && (s'.Some? ==> Ready(d', s'.value))
  {
    if ok && s.at.Renaming? {
      RenameAddsOne(d, s.v, possible, default);
    } else if ok && s.at.SyncingDir? {
      SyncDirLeavesOne(d, possible, default);
    } else {
      TmpStepDoesNotShow(d, s, ok, mixed);
      var d' := SaveStep(d, s, ok, mixed).0;
      SameNamesLead(d, d', possible, default);
      SameAreLedTo(d, d', possible, default);
      SameFileLeads(d, d', d.final, Last(possible), default);
    }
  }

  /** What a power loss brings back is one of the possible values, whole. */
  lemma OneComesBack<V>(d: Disk<V>, left: Disk<V>, possible: seq<V>, default: V) returns (k: nat)
    requires Sound(d) && Names(d, possible, default) && MaySurvive(d, left)
    ensures k < |possible| && ReadFinal(left, default) == Value(possible[k])
    ensures Sound(left) && Names(left, [possible[k]], default)
  {
    assert LeadsToOne(d, left.final, possible, default);
    k :| 0 <= k < |possible| && Leads(d, left.final, possible[k], default);
    assert Leads(left, left.final, [possible[k]][0], default);
  }

  /** And every one of them may be what it brings back. */
  lemma ExactlyThePossible<V(!new)>(d: Disk<V>, possible: seq<V>, back: Loaded<V>, default: V)
    requires Sound(d) && Names(d, possible, default)
    ensures MayComeBack(d, back, default) <==> back.Value? && back.value in possible
  {
    if back.Value? && back.value in possible {
      var k :| 0 <= k < |possible| && possible[k] == back.value;
      assert IsLedTo(d, possible[k], default);
      var c :| c in d.finals && Leads(d, c, possible[k], default);
      var left := d.(final := c, finals := {c}, tmp := None, synced := d.data.Keys);
      assert MaySurvive(d, left) && ReadFinal(left, default) == back;
    }
    if left :| MaySurvive(d, left) && ReadFinal(left, default) == back {
      var k := OneComesBack(d, left, possible, default);
    }
  }
}
