/** The one-sector write-back window of the filesystem object. */
module Window {
  import opened Volume

  /** Copies a sector into the window's buffer. */
  method FillWin(fs: Fatfs, data: Sector)
    requires fs.win.Length == 512
    modifies fs.win
    ensures fs.win[..] == data
  {
    forall i | 0 <= i < 512 {
      fs.win[i] := data[i];
    }
  }

  /** Writing the window to its own sector, and to that sector's copy in the second FAT when it has one, changes
      nothing a client sees. `d` is the medium after the two writes, of which the second may have failed. */
  lemma WrittenBack(g: Geometry, mr: bool, v: Vol, d: seq<Sector>)
    requires VolInv(g, mr, v) && v.wflag
    requires |d| == |v.disk| && d[v.winsect] == v.win
    requires forall s: nat | s < |d| && s != v.winsect
               && !(g.nFats == 2 && InFat1(g, v.winsect) && s == v.winsect + g.fsize) :: d[s] == v.disk[s]
    requires mr && g.nFats == 2 && InFat1(g, v.winsect) ==> d[v.winsect + g.fsize] == v.win
    ensures VolInv(g, mr, v.(disk := d, wflag := false))
    ensures Logical(g, v.(disk := d, wflag := false)) == Logical(g, v)
  {
    var v' := v.(disk := d, wflag := false);
    forall k: nat | k < |v.disk|
      ensures Logical(g, v')[k] == Logical(g, v)[k]
    {
      LogicalAt(g, v, k);
      LogicalAt(g, v', k);
    }
    assert Logical(g, v') == Logical(g, v);
  }

  /** A failed write-back leaves the window dirty, so whatever the medium now holds below it stays hidden. */
  lemma NotWrittenBack(g: Geometry, mr: bool, v: Vol, d: seq<Sector>)
    requires VolInv(g, mr, v) && v.wflag
    requires |d| == |v.disk| && forall s: nat :: s < |d| && s != v.winsect ==> d[s] == v.disk[s]
    ensures VolInv(g, mr, v.(disk := d))
    ensures Logical(g, v.(disk := d)) == Logical(g, v)
  {
    var v' := v.(disk := d);
    forall k: nat | k < |v.disk|
      ensures Logical(g, v')[k] == Logical(g, v)[k]
    {
      LogicalAt(g, v, k);
      LogicalAt(g, v', k);
    }
    assert Logical(g, v') == Logical(g, v);
  }

  method SyncWindow(fs: Fatfs) returns (res: FResult)
    requires fs.Valid()
    modifies fs`disk, fs`wflag
    ensures fs.Valid() && fs.L() == old(fs.L())
    ensures res == Ok || res == DiskErr
    ensures res == Ok ==> !fs.wflag
    ensures res == DiskErr ==> fs.wflag && old(fs.wflag)
    ensures fs.reliable ==> res == Ok
  {
    res := Ok;
    if fs.wflag {
      ghost var v := fs.V();
      var ok := fs.DiskWrite(fs.win[..], fs.winsect);
      if ok {
        fs.wflag := false;
        if Sub32(fs.winsect, fs.g.fatbase) < fs.g.fsize {
          if fs.g.nFats == 2 {
            var _ := fs.DiskWrite(fs.win[..], fs.winsect + fs.g.fsize);
          }
        }
        WrittenBack(fs.g, fs.mirrorReliable, v, fs.disk);
        assert fs.V() == v.(disk := fs.disk, wflag := false);
      } else {
        res := DiskErr;
        NotWrittenBack(fs.g, fs.mirrorReliable, v, fs.disk);
        assert fs.V() == v.(disk := fs.disk);
      }
    }
  }

  /** Moving a clean window shows nothing new: it takes what the medium has, or becomes unusable. */
  lemma Moved(g: Geometry, mr: bool, v: Vol, s: nat, data: Sector)
    requires VolInv(g, mr, v) && !v.wflag
    requires s == INVALID || (s < |v.disk| && !InMirror(g, s) && data == v.disk[s])
    ensures VolInv(g, mr, v.(win := data, winsect := s))
    ensures Logical(g, v.(win := data, winsect := s)) == Logical(g, v)
  {
    var v' := v.(win := data, winsect := s);
    forall k: nat | k < |v.disk|
      ensures Logical(g, v')[k] == Logical(g, v)[k]
    {
      LogicalAt(g, v, k);
      LogicalAt(g, v', k);
    }
    assert Logical(g, v') == Logical(g, v);
  }

  method MoveWindow(fs: Fatfs, sector: nat) returns (res: FResult)
    requires fs.Valid() && sector < |fs.disk| && !InMirror(fs.g, sector)
    modifies fs`disk, fs`wflag, fs`winsect, fs.win
    ensures fs.Valid() && fs.L() == old(fs.L())
    ensures res == Ok || res == DiskErr
    ensures res == Ok ==> fs.winsect == sector && fs.win[..] == fs.L()[sector]
    ensures res == DiskErr ==> fs.winsect == INVALID || (fs.wflag && fs.winsect == old(fs.winsect))
    ensures fs.wflag ==> fs.winsect == old(fs.winsect)
    ensures fs.reliable ==> res == Ok
  {
    res := Ok;
    if sector != fs.winsect {
      res := SyncWindow(fs);
      if res == Ok {
        var s := sector;
        ghost var v := fs.V();
        var ok, data := fs.DiskRead(s);
        FillWin(fs, data);
        if !ok {
          s := INVALID;
          res := DiskErr;
        }
        fs.winsect := s;
        Moved(fs.g, fs.mirrorReliable, v, s, data);
        assert fs.V() == v.(win := data, winsect := s);
      }
    }
    LogicalAt(fs.g, fs.V(), sector);
  }
}
