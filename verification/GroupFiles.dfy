/** Files over the log: what fs.c keeps in its blocks survives a crash as the last committed group has it. */
module GroupFiles {
  import opened Blocks
  import LogDisk
  import Fs
  import opened GroupCommit

  /** The disks agree from the bitmap on. */
  ghost predicate SameFrom(start: nat, d: Fs.Disk, e: Fs.Disk) {
    |e| == |d| && forall b :: start <= b < |d| ==> e[b] == d[b]
  }

  lemma SameSlots(sb: Fs.SuperBlock, d: Fs.Disk, e: Fs.Disk, ino: Fs.Inode)
    requires Fs.SbOk(sb, |d|) && Fs.InodeOk(sb, d, ino) && SameFrom(sb.bmapstart, d, e)
    ensures forall s: nat :: s < Fs.SLOTS ==> Fs.SlotOf(e, ino, s) == Fs.SlotOf(d, ino, s)
    ensures Fs.SameFile(d, e, ino)
  {
    hide GetWord;
    assert Fs.SlotOf(d, ino, Fs.NDIRECT) == ino.addrs[Fs.NDIRECT];
    forall s: nat | s < Fs.SLOTS && Fs.SlotOf(d, ino, s) != 0 ensures sb.bmapstart < Fs.SlotOf(d, ino, s) {
      assert Fs.DataBlock(sb, Fs.SlotOf(d, ino, s));
      assert sb.bmapstart + 0 / BPB < sb.meta;
    }
  }

  lemma SameReferences(sb: Fs.SuperBlock, d: Fs.Disk, e: Fs.Disk, inodes: seq<Fs.Inode>)
    requires Fs.SbOk(sb, |d|) && Fs.AllInodesOk(sb, d, inodes) && SameFrom(sb.bmapstart, d, e)
    ensures Fs.AllInodesOk(sb, e, inodes)
    ensures forall i: nat, s: nat, b: nat :: i < |inodes| ==> (Fs.Refers(e, inodes[i], s, b) <==> Fs.Refers(d, inodes[i], s, b))
    ensures forall b: nat :: Fs.Referenced(e, inodes, b) <==> Fs.Referenced(d, inodes, b)
  {
    hide Fs.SlotOf, Fs.SameFile;
    forall i: nat | i < |inodes|
      ensures Fs.InodeOk(sb, e, inodes[i]) && forall s: nat, b: nat :: Fs.Refers(e, inodes[i], s, b) <==> Fs.Refers(d, inodes[i], s, b)
    {
      assert Fs.InodeOk(sb, d, inodes[i]);
      SameSlots(sb, d, e, inodes[i]);
    }
    hide Fs.Refers;
    forall b: nat ensures Fs.Referenced(e, inodes, b) <==> Fs.Referenced(d, inodes, b) {
      if i: nat, s: nat :| i < |inodes| && Fs.Refers(d, inodes[i], s, b) { assert Fs.Refers(e, inodes[i], s, b); }
      if i: nat, s: nat :| i < |inodes| && Fs.Refers(e, inodes[i], s, b) { assert Fs.Refers(d, inodes[i], s, b); }
    }
  }

  /** Whether the file system is in order, and what its files hold, depends on no block below the bitmap. */
  lemma SameFs(sb: Fs.SuperBlock, d: Fs.Disk, e: Fs.Disk, inodes: seq<Fs.Inode>, loose: set<nat>, i: nat)
    requires Fs.FsOk(sb, d, inodes, loose) && SameFrom(sb.bmapstart, d, e)
    ensures Fs.FsOk(sb, e, inodes, loose)
    ensures i < |inodes| ==> Fs.Readable(d, inodes[i], inodes[i].size) && Fs.Readable(e, inodes[i], inodes[i].size) &&
                             Fs.Content(e, inodes[i]) == Fs.Content(d, inodes[i])
  {
    hide Fs.Refers, Fs.Referenced, Fs.SlotOf, Fs.InodeOk, Fs.SameFile, Fs.Content, Fs.Readable;
    SameReferences(sb, d, e, inodes);
    forall b: nat | b < sb.size ensures Fs.BBlock(sb, b) < |e| && (Fs.Used(sb, e, b) <==> Fs.Used(sb, d, b)) {
      assert e[Fs.BBlock(sb, b)] == d[Fs.BBlock(sb, b)];
    }
    if i < |inodes| {
      SameSlots(sb, d, e, inodes[i]);
      Fs.BelowSizeMapped(sb, d, inodes[i]);
      Fs.SameFileContent(d, e, inodes[i]);
    }
  }

  /** Stop any run anywhere, crash any number of times in recovery and let one recovery finish: if the last committed group
      left a file system in order, whose log lies below its bitmap, it is in order, and every file holds what it held. */
  lemma FilesSurvive(p: Params, ms: seq<Machine>, es: seq<Event>, k: nat, cuts: seq<nat>,
                     sb: Fs.SuperBlock, inodes: seq<Fs.Inode>, loose: set<nat>, i: nat)
    requires Fits(p) && Run(p, ms, es) && k < |ms| && Contained(p, ms, es, k) && p.g.start + p.g.size <= sb.bmapstart
    requires |ms[k].groups| > 0 && Fs.FsOk(sb, Last(ms[k]), inodes, loose)
    ensures LogDisk.DiskOk(p.g, ms[k].disk)
    ensures var r := LogDisk.Recover(p.g, LogDisk.CrashedRecoveries(p.g, ms[k].disk, cuts));
            Fs.FsOk(sb, r, inodes, loose) &&
            (i < |inodes| ==> Fs.Readable(Last(ms[k]), inodes[i], inodes[i].size) && Fs.Readable(r, inodes[i], inodes[i].size) &&
                              Fs.Content(r, inodes[i]) == Fs.Content(Last(ms[k]), inodes[i]))
  {
    hide Run, Contained, Fs.FsOk, Fs.Content, Fs.Readable, LogDisk.Recover, LogDisk.CrashedRecoveries, LogDisk.DiskOk;
    RunDurable(p, ms, es, k, cuts);
    SameFs(sb, Last(ms[k]), LogDisk.Recover(p.g, LogDisk.CrashedRecoveries(p.g, ms[k].disk, cuts)), inodes, loose, i);
  }
}
