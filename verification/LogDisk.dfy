/** The write-ahead log as it lies on disk: the header block, the disk states that commit() and
    recover_from_log() pass through, and crash atomicity over all of them. */
module LogDisk {
  import opened Blocks

  type Disk = seq<Block>

  /** Where the log lives: the header at block start, then size - 1 log blocks. */
  datatype Geometry = Geometry(start: nat, size: nat)

  predicate InLog(g: Geometry, b: nat) {
    g.start <= b < g.start + g.size
  }

  // ----- the header block

  /** The loop that copies block numbers lh[i..] into the header block. */
  function EncodeFrom(b: Block, lh: seq<Word>, i: nat): Block
    requires i <= |lh| < WORDS
    decreases |lh| - i
  {
    if i == |lh| then b else EncodeFrom(SetWord(b, i + 1, lh[i]), lh, i + 1)
  }

  function EncodeHead(b: Block, lh: seq<Word>): Block
    requires |lh| < WORDS
  {
    EncodeFrom(SetWord(b, 0, |lh|), lh, 0)
  }

  function DecodeHead(b: Block): seq<Word>
    requires GetWord(b, 0) < WORDS
  {
    seq(GetWord(b, 0), i requires 0 <= i < GetWord(b, 0) => GetWord(b, i + 1))
  }

  lemma {:induction false} EncodeFromWord(b: Block, lh: seq<Word>, i: nat, j: nat)
    requires i <= |lh| < WORDS && j < WORDS
    ensures GetWord(EncodeFrom(b, lh, i), j) == if i < j <= |lh| then lh[j - 1] else GetWord(b, j)
    decreases |lh| - i
  {
    hide GetWord, SetWord;
    if i < |lh| {
      EncodeFromWord(SetWord(b, i + 1, lh[i]), lh, i + 1, j);
      GetSetWord(b, i + 1, lh[i], j);
    }
  }

  /** Whatever the header block held before, writing a header and reading it back gives that header. */
  lemma HeadRoundTrip(b: Block, lh: seq<Word>)
    requires |lh| < WORDS
    ensures GetWord(EncodeHead(b, lh), 0) == |lh|
    ensures DecodeHead(EncodeHead(b, lh)) == lh
  {
    hide GetWord, SetWord;
    EncodeFromWord(SetWord(b, 0, |lh|), lh, 0, 0);
    GetSetWord(b, 0, |lh|, 0);
    forall i | 0 <= i < |lh| ensures GetWord(EncodeHead(b, lh), i + 1) == lh[i] {
      EncodeFromWord(SetWord(b, 0, |lh|), lh, 0, i + 1);
    }
  }

  // ----- disks that hold a log

  /** A header the log code could have written: it fits the log and names blocks outside it. */
  predicate HeaderOk(g: Geometry, lh: seq<Word>, disksize: nat) {
    |lh| < g.size && |lh| < WORDS &&
    forall i :: 0 <= i < |lh| ==> lh[i] < disksize && !InLog(g, lh[i])
  }

  predicate DiskOk(g: Geometry, d: Disk) {
    0 < g.size && g.start + g.size <= |d| &&
    GetWord(d[g.start], 0) < WORDS && HeaderOk(g, DecodeHead(d[g.start]), |d|)
  }

  function Header(g: Geometry, d: Disk): (lh: seq<Word>)
    requires DiskOk(g, d)
    ensures HeaderOk(g, lh, |d|)
  {
    DecodeHead(d[g.start])
  }

  /** The last position of b in the header, or NoSlot. */
  datatype Slot = NoSlot | Slot(at: nat)

  function LastSlot(lh: seq<Word>, b: nat): (s: Slot)
    ensures s.Slot? ==> s.at < |lh| && lh[s.at] == b && forall i :: s.at < i < |lh| ==> lh[i] != b
    ensures s.NoSlot? ==> forall i :: 0 <= i < |lh| ==> lh[i] != b
  {
    if lh == [] then NoSlot
    else if lh[|lh| - 1] == b then Slot(|lh| - 1)
    else LastSlot(lh[..|lh| - 1], b)
  }

  /** What block b will hold once the log is replayed: the committed contents of the disk. */
  function Content(g: Geometry, d: Disk, b: nat): Block
    requires DiskOk(g, d) && b < |d|
  {
    var s := LastSlot(Header(g, d), b);
    if s.Slot? then d[g.start + 1 + s.at] else d[b]
  }

  /** The blocks outside the log agree. */
  ghost predicate SameHome(g: Geometry, d: Disk, e: Disk) {
    |d| == |e| && forall b :: 0 <= b < |d| && !InLog(g, b) ==> d[b] == e[b]
  }

  /** The committed contents of d, block by block, are the home blocks of e. */
  ghost predicate Holds(g: Geometry, d: Disk, e: Disk) {
    DiskOk(g, d) && |d| == |e| && forall b :: 0 <= b < |d| && !InLog(g, b) ==> Content(g, d, b) == e[b]
  }

  // ----- commit()

  /** write_log after k block copies. */
  function LogWritten(g: Geometry, d: Disk, vals: seq<Block>, k: nat): (r: Disk)
    requires g.start + |vals| < |d| && k <= |vals|
    ensures |r| == |d|
  {
    if k == 0 then d else LogWritten(g, d, vals, k - 1)[g.start + k := vals[k - 1]]
  }

  /** install_trans after k block copies. */
  function Installed(g: Geometry, d: Disk, lh: seq<Word>, k: nat): (r: Disk)
    requires HeaderOk(g, lh, |d|) && g.start + g.size <= |d| && k <= |lh|
    ensures |r| == |d|
  {
    if k == 0 then d
    else var p := Installed(g, d, lh, k - 1); p[lh[k - 1] := p[g.start + k]]
  }

  function HeadWritten(g: Geometry, d: Disk, lh: seq<Word>): (r: Disk)
    requires g.start < |d| && |lh| < WORDS
    ensures |r| == |d|
  {
    d[g.start := EncodeHead(d[g.start], lh)]
  }

  /** The disk after j of the 2n + 2 block writes of commit(). */
  function CommitDisk(g: Geometry, d: Disk, lh: seq<Word>, vals: seq<Block>, j: nat): (r: Disk)
    requires DiskOk(g, d) && HeaderOk(g, lh, |d|) && |vals| == |lh| && j <= 2 * |lh| + 2
    ensures |r| == |d|
  {
    var n := |lh|;
    if j <= n then LogWritten(g, d, vals, j)
    else
      var committed := HeadWritten(g, LogWritten(g, d, vals, n), lh);
      if j <= 2 * n + 1 then Installed(g, committed, lh, j - n - 1)
      else HeadWritten(g, Installed(g, committed, lh, n), [])
  }

  /** The disk after j of the n + 1 block writes of recover_from_log(); a larger j means it finished. */
  function RecoverDisk(g: Geometry, d: Disk, j: nat): (r: Disk)
    requires DiskOk(g, d)
    ensures |r| == |d|
  {
    var lh := Header(g, d);
    if j <= |lh| then Installed(g, d, lh, j) else HeadWritten(g, Installed(g, d, lh, |lh|), [])
  }

  function Recover(g: Geometry, d: Disk): (r: Disk)
    requires DiskOk(g, d)
  {
    RecoverDisk(g, d, |Header(g, d)| + 1)
  }

  /** The home blocks with the logged contents put in place, later entries winning. */
  function Updated(d: Disk, lh: seq<Word>, vals: seq<Block>): (r: Disk)
    requires |vals| == |lh| && forall i :: 0 <= i < |lh| ==> lh[i] < |d|
    ensures |r| == |d|
  {
    if lh == [] then d
    else Updated(d, lh[..|lh| - 1], vals[..|lh| - 1])[lh[|lh| - 1] := vals[|lh| - 1]]
  }

  // ----- what each partial disk holds

  lemma {:induction false} LogWrittenAt(g: Geometry, d: Disk, vals: seq<Block>, k: nat, b: nat)
    requires g.start + |vals| < |d| && k <= |vals| && b < |d|
    ensures LogWritten(g, d, vals, k)[b] == if g.start < b <= g.start + k then vals[b - g.start - 1] else d[b]
  {
    if k > 0 { LogWrittenAt(g, d, vals, k - 1, b); }
  }

  lemma {:induction false} InstalledAt(g: Geometry, d: Disk, lh: seq<Word>, k: nat, b: nat)
    requires HeaderOk(g, lh, |d|) && g.start + g.size <= |d| && k <= |lh| && b < |d|
    ensures Installed(g, d, lh, k)[b] ==
            (var s := LastSlot(lh[..k], b); if s.Slot? then d[g.start + 1 + s.at] else d[b])
  {
    hide GetWord;
    if k > 0 {
      InstalledAt(g, d, lh, k - 1, b);
      InstalledAt(g, d, lh, k - 1, g.start + k);
      assert InLog(g, g.start + k);
      assert lh[..k][..k - 1] == lh[..k - 1];
      assert LastSlot(lh[..k - 1], g.start + k).NoSlot?;
    }
  }

  lemma {:induction false} UpdatedAt(d: Disk, lh: seq<Word>, vals: seq<Block>, b: nat)
    requires |vals| == |lh| && b < |d| && forall i :: 0 <= i < |lh| ==> lh[i] < |d|
    ensures Updated(d, lh, vals)[b] == (var s := LastSlot(lh, b); if s.Slot? then vals[s.at] else d[b])
  {
    if lh != [] && lh[|lh| - 1] != b {
      UpdatedAt(d, lh[..|lh| - 1], vals[..|lh| - 1], b);
    }
  }

  lemma EmptyHeader(g: Geometry, d: Disk)
    requires 0 < g.size && g.start + g.size <= |d|
    ensures var r := HeadWritten(g, d, []); DiskOk(g, r) && Header(g, r) == [] && Holds(g, r, d)
  {
    HeadRoundTrip(d[g.start], []);
  }

  // ----- recovery

  /** Replaying a prefix of the log changes neither the header, nor the log blocks, nor the committed contents. */
  lemma InstalledPreserves(g: Geometry, d: Disk, k: nat)
    requires DiskOk(g, d) && k <= |Header(g, d)|
    ensures var r := Installed(g, d, Header(g, d), k);
            DiskOk(g, r) && Header(g, r) == Header(g, d) &&
            forall b :: 0 <= b < |d| && !InLog(g, b) ==> Content(g, r, b) == Content(g, d, b)
  {
    hide GetWord, DecodeHead;
    var lh := Header(g, d);
    var r := Installed(g, d, lh, k);
    forall b: nat | InLog(g, b) ensures r[b] == d[b] {
      InstalledAt(g, d, lh, k, b);
      assert LastSlot(lh[..k], b).NoSlot?;
    }
    assert InLog(g, g.start);
    forall b | 0 <= b < |d| && !InLog(g, b) ensures Content(g, r, b) == Content(g, d, b) {
      var s := LastSlot(lh, b);
      if s.Slot? {
        assert InLog(g, g.start + 1 + s.at);
      } else {
        InstalledAt(g, d, lh, k, b);
        assert LastSlot(lh[..k], b).NoSlot?;
      }
    }
  }

  /** A finished recovery puts the committed contents in the home blocks and empties the log. */
  lemma RecoverInstalls(g: Geometry, d: Disk)
    requires DiskOk(g, d)
    ensures DiskOk(g, Recover(g, d)) && Header(g, Recover(g, d)) == []
    ensures forall b :: 0 <= b < |d| && !InLog(g, b) ==> Recover(g, d)[b] == Content(g, d, b)
  {
    hide GetWord, DecodeHead, EncodeHead;
    var lh := Header(g, d);
    EmptyHeader(g, Installed(g, d, lh, |lh|));
    assert lh[..|lh|] == lh;
    assert InLog(g, g.start);
    forall b | 0 <= b < |d| && !InLog(g, b) ensures Recover(g, d)[b] == Content(g, d, b) {
      InstalledAt(g, d, lh, |lh|, b);
    }
  }

  /** Stopping recovery after any number of its writes leaves the committed contents what they were. */
  lemma RecoveryPreserves(g: Geometry, d: Disk, j: nat)
    requires DiskOk(g, d)
    ensures DiskOk(g, RecoverDisk(g, d, j))
    ensures forall b :: 0 <= b < |d| && !InLog(g, b) ==> Content(g, RecoverDisk(g, d, j), b) == Content(g, d, b)
  {
    hide GetWord, DecodeHead, EncodeHead, Installed;
    if j <= |Header(g, d)| {
      InstalledPreserves(g, d, j);
    } else {
      RecoverInstalls(g, d);
      assert RecoverDisk(g, d, j) == Recover(g, d);
      forall b | 0 <= b < |d| && !InLog(g, b) ensures Content(g, Recover(g, d), b) == Content(g, d, b) {
        assert LastSlot([], b).NoSlot?;
      }
    }
  }

  // ----- commit

  /** After any prefix of commit()'s writes the committed contents are the old ones before the header
      write and the new ones from it on. */
  lemma CommitSwitches(g: Geometry, d: Disk, lh: seq<Word>, vals: seq<Block>, j: nat)
    requires DiskOk(g, d) && Header(g, d) == []
    requires HeaderOk(g, lh, |d|) && |vals| == |lh| && j <= 2 * |lh| + 2
    ensures Holds(g, CommitDisk(g, d, lh, vals, j), if j <= |lh| then d else Updated(d, lh, vals))
  {
    hide Holds, LogWritten, HeadWritten, Installed, RecoverDisk, Updated, DiskOk, HeaderOk, Header;
    HeaderBounds(g, lh, d);
    if j <= |lh| {
      LogWrittenHolds(g, d, vals, j);
    } else {
      CommittedHolds(g, d, lh, vals);
      CommitTailIsRecovery(g, d, lh, vals, j);
      RecoveryHolds(g, HeadWritten(g, LogWritten(g, d, vals, |lh|), lh), Updated(d, lh, vals), j - |lh| - 1);
    }
  }

  lemma HeaderBounds(g: Geometry, lh: seq<Word>, d: Disk)
    requires DiskOk(g, d) && HeaderOk(g, lh, |d|)
    ensures |lh| < g.size && |lh| < WORDS && g.start + g.size <= |d|
    ensures forall i :: 0 <= i < |lh| ==> lh[i] < |d|
  {}

  lemma RecoveryHolds(g: Geometry, d: Disk, e: Disk, j: nat)
    requires Holds(g, d, e)
    ensures Holds(g, RecoverDisk(g, d, j), e)
  {
    hide GetWord, DecodeHead, Installed, RecoverDisk, HeaderOk, Content;
    RecoveryPreserves(g, d, j);
  }

  /** From the header write on, commit() does to the disk what recovery would do. */
  lemma CommitTailIsRecovery(g: Geometry, d: Disk, lh: seq<Word>, vals: seq<Block>, j: nat)
    requires DiskOk(g, d) && HeaderOk(g, lh, |d|) && |vals| == |lh| && |lh| < j <= 2 * |lh| + 2
    ensures var c := HeadWritten(g, LogWritten(g, d, vals, |lh|), lh);
            DiskOk(g, c) && CommitDisk(g, d, lh, vals, j) == RecoverDisk(g, c, j - |lh| - 1)
  {
    hide GetWord, DecodeHead, EncodeHead, LogWritten, Installed;
    CommittedHolds(g, d, lh, vals);
  }

  lemma LogWrittenHolds(g: Geometry, d: Disk, vals: seq<Block>, j: nat)
    requires DiskOk(g, d) && Header(g, d) == [] && |vals| < g.size && j <= |vals|
    ensures Holds(g, LogWritten(g, d, vals, j), d)
  {
    forall b | 0 <= b < |d| ensures !(g.start < b <= g.start + j) ==> LogWritten(g, d, vals, j)[b] == d[b] {
      LogWrittenAt(g, d, vals, j, b);
    }
  }

  lemma CommittedHolds(g: Geometry, d: Disk, lh: seq<Word>, vals: seq<Block>)
    requires DiskOk(g, d) && HeaderOk(g, lh, |d|) && |vals| == |lh|
    ensures var c := HeadWritten(g, LogWritten(g, d, vals, |lh|), lh);
            DiskOk(g, c) && Header(g, c) == lh && Holds(g, c, Updated(d, lh, vals))
  {
    hide GetWord, DecodeHead, EncodeHead, LogWritten, Updated;
    var w := LogWritten(g, d, vals, |lh|);
    var c := HeadWritten(g, w, lh);
    HeadRoundTrip(w[g.start], lh);
    forall b | 0 <= b < |d| && !InLog(g, b) ensures Content(g, c, b) == Updated(d, lh, vals)[b] {
      UpdatedAt(d, lh, vals, b);
      var s := LastSlot(lh, b);
      LogWrittenAt(g, d, vals, |lh|, if s.Slot? then g.start + 1 + s.at else b);
    }
  }

  // ----- crash atomicity

  /** Crashes inside recovery: each run starts over from the disk the previous one left, and is cut
      after cuts[i] block writes. */
  function CrashedRecoveries(g: Geometry, d: Disk, cuts: seq<nat>): (r: Disk)
    requires DiskOk(g, d)
    ensures |r| == |d| && DiskOk(g, r)
    decreases |cuts|
  {
    if cuts == [] then d
    else
      RecoveryPreserves(g, d, cuts[0]);
      CrashedRecoveries(g, RecoverDisk(g, d, cuts[0]), cuts[1..])
  }

  lemma {:induction false} CrashedRecoveriesPreserve(g: Geometry, d: Disk, cuts: seq<nat>)
    requires DiskOk(g, d)
    ensures forall b :: 0 <= b < |d| && !InLog(g, b) ==>
              Content(g, CrashedRecoveries(g, d, cuts), b) == Content(g, d, b)
    decreases |cuts|
  {
    if cuts != [] {
      RecoveryPreserves(g, d, cuts[0]);
      CrashedRecoveriesPreserve(g, RecoverDisk(g, d, cuts[0]), cuts[1..]);
    }
  }

  /** However often the machine crashes inside recovery, the recovery that finishes leaves exactly
      the committed contents in the home blocks. */
  lemma CrashThenRecover(g: Geometry, d: Disk, e: Disk, cuts: seq<nat>)
    requires Holds(g, d, e)
    ensures var r := Recover(g, CrashedRecoveries(g, d, cuts));
            DiskOk(g, r) && Header(g, r) == [] && SameHome(g, r, e)
  {
    CrashedRecoveriesPreserve(g, d, cuts);
    RecoverInstalls(g, CrashedRecoveries(g, d, cuts));
  }

  /** Crash atomicity: stop commit() after any j of its block writes, crash any number of times inside
      recovery, and let one recovery finish: the home blocks are all old, or all new exactly when the
      first header write reached the disk. */
  lemma CrashAtomicity(g: Geometry, d: Disk, lh: seq<Word>, vals: seq<Block>, j: nat, cuts: seq<nat>)
    requires DiskOk(g, d) && Header(g, d) == []
    requires HeaderOk(g, lh, |d|) && |vals| == |lh| && j <= 2 * |lh| + 2
    ensures DiskOk(g, CommitDisk(g, d, lh, vals, j))
    ensures var r := Recover(g, CrashedRecoveries(g, CommitDisk(g, d, lh, vals, j), cuts));
            SameHome(g, r, if j <= |lh| then d else Updated(d, lh, vals)) && DiskOk(g, r) && Header(g, r) == []
  {
    CommitSwitches(g, d, lh, vals, j);
    CrashThenRecover(g, CommitDisk(g, d, lh, vals, j), if j <= |lh| then d else Updated(d, lh, vals), cuts);
  }

  // ----- the disk states the procedures leave behind, one per block write

  function InstallTrace(g: Geometry, d: Disk, lh: seq<Word>, k: nat): (t: seq<Disk>)
    requires HeaderOk(g, lh, |d|) && g.start + g.size <= |d| && k <= |lh|
    ensures |t| == k
  {
    if k == 0 then [] else InstallTrace(g, d, lh, k - 1) + [Installed(g, d, lh, k)]
  }

  function CommitTrace(g: Geometry, d: Disk, lh: seq<Word>, vals: seq<Block>, k: nat): (t: seq<Disk>)
    requires DiskOk(g, d) && HeaderOk(g, lh, |d|) && |vals| == |lh| && k <= 2 * |lh| + 2
    ensures |t| == k
  {
    if k == 0 then [] else CommitTrace(g, d, lh, vals, k - 1) + [CommitDisk(g, d, lh, vals, k)]
  }

  function RecoverTrace(g: Geometry, d: Disk, k: nat): (t: seq<Disk>)
    requires DiskOk(g, d) && k <= |Header(g, d)| + 1
    ensures |t| == k
  {
    if k == 0 then [] else RecoverTrace(g, d, k - 1) + [RecoverDisk(g, d, k)]
  }

  lemma {:induction false} CommitTraceAt(g: Geometry, d: Disk, lh: seq<Word>, vals: seq<Block>, k: nat, j: nat)
    requires DiskOk(g, d) && HeaderOk(g, lh, |d|) && |vals| == |lh| && j < k <= 2 * |lh| + 2
    ensures CommitTrace(g, d, lh, vals, k)[j] == CommitDisk(g, d, lh, vals, j + 1)
  {
    hide DiskOk, HeaderOk, CommitDisk;
    if j < k - 1 { CommitTraceAt(g, d, lh, vals, k - 1, j); }
  }

  lemma CommitAtHead(g: Geometry, d: Disk, lh: seq<Word>, vals: seq<Block>)
    requires DiskOk(g, d) && HeaderOk(g, lh, |d|) && |vals| == |lh|
    ensures CommitDisk(g, d, lh, vals, |lh| + 1) == HeadWritten(g, LogWritten(g, d, vals, |lh|), lh)
  {
    hide GetWord, DecodeHead, EncodeHead, LogWritten, HeadWritten;
    assert Installed(g, HeadWritten(g, LogWritten(g, d, vals, |lh|), lh), lh, 0) ==
           HeadWritten(g, LogWritten(g, d, vals, |lh|), lh);
  }

  lemma CommitInstalls(g: Geometry, d: Disk, lh: seq<Word>, vals: seq<Block>, k: nat)
    requires DiskOk(g, d) && HeaderOk(g, lh, |d|) && |vals| == |lh| && k <= |lh|
    ensures CommitDisk(g, d, lh, vals, |lh| + 1 + k) == Installed(g, CommitDisk(g, d, lh, vals, |lh| + 1), lh, k)
  {
    hide GetWord, DecodeHead, EncodeHead, LogWritten, HeadWritten, Installed;
    CommitAtHead(g, d, lh, vals);
  }

  lemma CommitAtEnd(g: Geometry, d: Disk, lh: seq<Word>, vals: seq<Block>)
    requires DiskOk(g, d) && HeaderOk(g, lh, |d|) && |vals| == |lh|
    ensures CommitDisk(g, d, lh, vals, 2 * |lh| + 2) ==
            HeadWritten(g, Installed(g, CommitDisk(g, d, lh, vals, |lh| + 1), lh, |lh|), [])
  {
    hide GetWord, DecodeHead, EncodeHead, LogWritten, HeadWritten, Installed;
    CommitAtHead(g, d, lh, vals);
  }

  /** After its header write, commit() goes through the states of install_trans on the committed disk. */
  lemma {:induction false} CommitTraceInstall(g: Geometry, d: Disk, lh: seq<Word>, vals: seq<Block>, k: nat)
    requires DiskOk(g, d) && HeaderOk(g, lh, |d|) && |vals| == |lh| && k <= |lh|
    ensures CommitTrace(g, d, lh, vals, |lh| + 1 + k) ==
            CommitTrace(g, d, lh, vals, |lh| + 1) + InstallTrace(g, CommitDisk(g, d, lh, vals, |lh| + 1), lh, k)
  {
    hide DiskOk, HeaderOk, CommitDisk, Installed;
    HeaderBounds(g, lh, d);
    CommitInstalls(g, d, lh, vals, k);
    var c := CommitDisk(g, d, lh, vals, |lh| + 1);
    if k > 0 {
      CommitTraceInstall(g, d, lh, vals, k - 1);
      var p, q := CommitTrace(g, d, lh, vals, |lh| + 1), InstallTrace(g, c, lh, k - 1);
      assert p + (q + [Installed(g, c, lh, k)]) == (p + q) + [Installed(g, c, lh, k)];
    }
  }

  lemma CommitTraceStep(g: Geometry, d: Disk, lh: seq<Word>, vals: seq<Block>, k: nat)
    requires DiskOk(g, d) && HeaderOk(g, lh, |d|) && |vals| == |lh| && k <= 2 * |lh| + 1
    ensures CommitTrace(g, d, lh, vals, k + 1) == CommitTrace(g, d, lh, vals, k) + [CommitDisk(g, d, lh, vals, k + 1)]
  {
    hide DiskOk, HeaderOk, CommitDisk;
  }

  lemma {:induction false} RecoverTraceInstall(g: Geometry, d: Disk, k: nat)
    requires DiskOk(g, d) && k <= |Header(g, d)|
    ensures RecoverTrace(g, d, k) == InstallTrace(g, d, Header(g, d), k)
  {
    hide DiskOk, HeaderOk, Installed, Header;
    if k > 0 { RecoverTraceInstall(g, d, k - 1); }
  }

  lemma RecoverTraceStages(g: Geometry, d: Disk)
    requires DiskOk(g, d)
    ensures g.start + g.size <= |d|
    ensures var lh := Header(g, d);
            Recover(g, d) == HeadWritten(g, Installed(g, d, lh, |lh|), []) &&
            RecoverTrace(g, d, |lh| + 1) == InstallTrace(g, d, lh, |lh|) + [Recover(g, d)]
  {
    hide GetWord, DecodeHead, EncodeHead, Installed, HeadWritten;
    RecoverTraceInstall(g, d, |Header(g, d)|);
  }
}
