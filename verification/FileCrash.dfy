/** Files across crashes: what the log keeps of the disk (src/fs/cache.c) and what the disk
says of the files (src/fs/inode.c), together. */
module FileCrash {
  import opened Basics
  import opened Bytes
  import opened WriteAheadLog
  import opened FileSpec
  import opened InodeTable
  import opened FileSystem
  import Bitmap
  import LogProtocol

  // ---- The files are in the home blocks ----

  lemma HomeBits(sb: SuperBlock, first: nat, v: Disk, w: Disk, used: set<nat>)
    requires Geometry(sb, first) && Bits(sb, first, v, used) && SameHome(sb, v, w)
    ensures Bits(sb, first, w, used)
  {
    forall m: nat | m < sb.numBlocks
      ensures Bitmap.Marked(sb, w, m) <==> m in used
    {
      Bitmap.BitmapBlock(sb, m);
      assert Bitmap.Marked(sb, v, m) <==> m in used;
    }
  }

  lemma HomeInodes(sb: SuperBlock, first: nat, v: Disk, w: Disk, table: map<nat, Entry>)
    requires Geometry(sb, first) && Inodes(sb, v, table) && SameHome(sb, v, w)
    ensures Inodes(sb, w, table)
  {
    forall b: nat | b < |v| && sb.inodeStart <= b < sb.bitmapStart
      ensures w[b] == v[b]
    {
      assert HomeBlock(sb, b);
    }
    InodesKept(sb, v, w, table);
  }

  lemma HomeFiles(sb: SuperBlock, first: nat, v: Disk, w: Disk, used: set<nat>, table: map<nat, Entry>, where: map<nat, seq<nat>>, files: map<nat, seq<byte>>)
    requires Geometry(sb, first) && AllWhole(first, v, used, table, where, files) && SameHome(sb, v, w)
    ensures AllWhole(first, w, used, table, where, files)
  {
    forall i <- table
      ensures Whole(first, w, used, table[i], where[i], files[i])
    {
      forall b: nat | first <= b < |v|
        ensures w[b] == v[b]
      {
        assert HomeBlock(sb, b);
      }
      OwnedUsed(first, v, used, table[i], where[i], {});
      SameFile(first, v, used, table[i], where[i], files[i], w, used);
    }
  }

  /** Disks with the same home blocks hold the same files. */
  lemma SameHolds(sb: SuperBlock, first: nat, v: Disk, w: Disk, files: map<nat, seq<byte>>)
    requires Holds(sb, first, v, files) && SameHome(sb, v, w)
    ensures Holds(sb, first, w, files)
  {
    var g :| HoldsBy(sb, first, v, files, g);
    HomeBits(sb, first, v, w, g.used);
    HomeInodes(sb, first, v, w, g.table);
    HomeFiles(sb, first, v, w, g.used, g.table, g.where, files);
    assert HoldsBy(sb, first, w, files, g);
  }

  // ---- They are determined by the disk ----

  lemma SameBlocks(v: Disk, e: Entry, s: seq<nat>, t: seq<nat>)
    requires AddressedBy(v, e, s) && AddressedBy(v, e, t) && |s| == |t|
    ensures s == t
  {
    forall i | 0 <= i < |s|
      ensures s[i] == t[i]
    {
      if INODE_NUM_DIRECT <= i {
        assert Slot(v[e.indirect], i) == s[i];
      }
    }
  }

  /** A disk holds one contents of a file and no other. */
  lemma FilesDetermined(sb: SuperBlock, first: nat, v: Disk, files: map<nat, seq<byte>>, files': map<nat, seq<byte>>, n: nat)
    requires Holds(sb, first, v, files) && Holds(sb, first, v, files') && n in files && n in files'
    ensures files[n] == files'[n]
  {
    var g :| HoldsBy(sb, first, v, files, g);
    var g' :| HoldsBy(sb, first, v, files', g');
    assert EntryIs(sb, v, n, g.table[n]) && EntryIs(sb, v, n, g'.table[n]);
    assert Whole(first, v, g.used, g.table[n], g.where[n], files[n]);
    assert Whole(first, v, g'.used, g'.table[n], g'.where[n], files'[n]);
    SameBlocks(v, g.table[n], g.where[n], g'.where[n]);
  }

  // ---- Crashes ----

  /** At every moment of every run, crashes and cut recoveries included, the disk is worth a
      disk with exactly the files of the latest commit point since the checkpoint `r`, or
      of `r`: a moment when no operation was in progress. */
  lemma FilesKept(sb: SuperBlock, first: nat, run: seq<LogProtocol.State>, steps: seq<LogProtocol.Step>, r: nat, i: nat) returns (j: nat)
    requires LogProtocol.IsRun(sb, run, steps) && r <= i < |run|
    requires r == 0 || (r < |steps| && steps[r] == LogProtocol.Finish)
    ensures r <= j <= i && (j == r || (j < i && LogProtocol.CommitPoint(run, steps, j)))
    ensures LogProtocol.Quiescent(run[j]) && forall m | j < m < i :: !LogProtocol.CommitPoint(run, steps, m)
    ensures Layout(sb, run[i].disk) && LogOk(sb, run[i].disk)
    ensures forall files | Holds(sb, first, run[j].logical, files) :: Holds(sb, first, Recovered(sb, run[i].disk), files)
  {
    j := LogProtocol.CrashConsistency(sb, run, steps, r, i);
    var d := Recovered(sb, run[i].disk);
    forall files | Holds(sb, first, run[j].logical, files)
      ensures Holds(sb, first, d, files)
    {
      SameHolds(sb, first, run[j].logical, d, files);
    }
  }

  /** After a crash, when recovery is complete, the disk holds the files of the latest commit
      point, and that is what its users see. */
  lemma FilesSurvive(sb: SuperBlock, first: nat, run: seq<LogProtocol.State>, steps: seq<LogProtocol.Step>, i: nat) returns (j: nat)
    requires LogProtocol.IsRun(sb, run, steps) && i < |steps| && steps[i] == LogProtocol.Reboot
    ensures j <= i && (j == 0 || LogProtocol.CommitPoint(run, steps, j))
    ensures LogProtocol.Quiescent(run[j]) && forall m | j < m < i :: !LogProtocol.CommitPoint(run, steps, m)
    ensures forall files | Holds(sb, first, run[j].logical, files) ::
      Holds(sb, first, run[i + 1].disk, files) && Holds(sb, first, run[i + 1].logical, files)
  {
    j := LogProtocol.LastCommit(sb, run, steps, 0, i);
    LogProtocol.RecoveryRestores(sb, run, steps, i);
    forall files | Holds(sb, first, run[j].logical, files)
      ensures Holds(sb, first, run[i + 1].disk, files)
    {
      SameHolds(sb, first, run[j].logical, run[i + 1].disk, files);
    }
  }
}
