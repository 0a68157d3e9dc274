/** The size-rotated log file and its numbered backups. */
module Rotation {
  import opened Common
  import opened Numbers

  /** Files by number: 0 is the active log, n its n-th backup (1 the newest). Absent files are not in the map. */
  type Disk = map<nat, seq<byte>>

  const DEFAULT_MAX_LOG_BYTES := 20 * 1024 * 1024
  const DEFAULT_LOG_BACKUPS := 4

  function Get(disk: Disk, n: nat): seq<byte> {
    if n in disk then disk[n] else []
  }

  /** Backups b..1, oldest first, then the active log. */
  function Stream(disk: Disk, b: nat): seq<byte> {
    if b == 0 then Get(disk, 0) else Get(disk, b) + Stream(disk, b - 1)
  }

  ghost predicate IsSuffix(s: seq<byte>, of: seq<byte>) {
    |s| <= |of| && s == of[|of| - |s|..]
  }

  /** All files below g are as before, g is empty, and the files above it have moved up by one. */
  ghost predicate Gap(was: Disk, now: Disk, b: nat, g: nat) {
    && g <= b
    && (forall j: nat :: j < g ==> Get(now, j) == Get(was, j))
    && g !in now
    && (forall j: nat :: g < j <= b ==> Get(now, j) == Get(was, j - 1))
  }

  /** Renaming the file just below the gap, if there is one, moves the gap down. */
  lemma {:induction false} ShiftOne(was: Disk, now: Disk, b: nat, g: nat)
    requires Gap(was, now, b, g) && g > 0
    ensures Gap(was, if g - 1 in now then now[g := now[g - 1]] - {g - 1} else now, b, g - 1)
  {
    var next := if g - 1 in now then now[g := now[g - 1]] - {g - 1} else now;
    assert Get(now, g - 1) == Get(was, g - 1);
    forall j: nat | g - 1 < j <= b ensures Get(next, j) == Get(was, j - 1) {
      if j > g {
        assert Get(now, j) == Get(was, j - 1);
      }
    }
    forall j: nat | j < g - 1 ensures Get(next, j) == Get(was, j) {
      assert Get(now, j) == Get(was, j);
    }
  }

  /** Moving files up never reorders the stream: all it can lose is the oldest backup. */
  lemma {:induction false} GapStream(was: Disk, now: Disk, b: nat, g: nat)
    requires Gap(was, now, b, g)
    ensures Stream(now, b) == if b == 0 then [] else Stream(was, b - 1)
    decreases b
  {
    if b > 0 {
      if g == b {
        assert Get(now, b) == [];
        SameStream(was, now, b - 1);
      } else {
        assert Get(now, b) == Get(was, b - 1);
        GapStream(was, now, b - 1, g);
      }
    }
  }

  lemma {:induction false} SameStream(was: Disk, now: Disk, b: nat)
    requires forall j: nat :: j <= b ==> Get(now, j) == Get(was, j)
    ensures Stream(now, b) == Stream(was, b)
    decreases b
  {
    if b > 0 {
      SameStream(was, now, b - 1);
    }
  }

  /** Full backups add up. */
  lemma {:induction false} FullStream(disk: Disk, r: nat, full: nat)
    requires forall j: nat :: 1 <= j <= r ==> |Get(disk, j)| >= full
    ensures |Stream(disk, r)| >= r * full + |Get(disk, 0)|
    decreases r
  {
    if r > 0 {
      FullStream(disk, r - 1, full);
      assert r * full == (r - 1) * full + full;
    }
  }

  lemma {:induction false} StreamGrows(disk: Disk, r: nat, b: nat)
    requires r <= b
    ensures |Stream(disk, r)| <= |Stream(disk, b)|
    decreases b
  {
    if r < b {
      StreamGrows(disk, r, b - 1);
    }
  }

  lemma {:induction false} AppendStream(was: Disk, now: Disk, b: nat, more: seq<byte>)
    requires Get(now, 0) == Get(was, 0) + more
    requires forall j: nat :: 1 <= j <= b ==> Get(now, j) == Get(was, j)
    ensures Stream(now, b) == Stream(was, b) + more
    decreases b
  {
    if b > 0 {
      AppendStream(was, now, b - 1, more);
    }
  }

  lemma SuffixOfSuffix(s: seq<byte>, head: seq<byte>, of: seq<byte>)
    requires IsSuffix(head + s, of)
    ensures IsSuffix(s, of)
  {
  }

  lemma SuffixAppend(s: seq<byte>, of: seq<byte>, more: seq<byte>)
    requires IsSuffix(s, of)
    ensures IsSuffix(s + more, of + more)
  {
  }

  datatype Status = Done | Closed | ShortWrite | Failed

  class RotatingFileWriter {
    const maxBytes: nat
    const maxBackups: nat
    var isOpen: bool
    var size: nat
    var disk: Disk

    /** What the log held when the writer was opened, and every byte written since. */
    ghost var prior: seq<byte>
    ghost var written: seq<byte>
    /** How many backups hold files that were active under this writer. */
    ghost var turned: nat
    /** How many steps on files failed, or wrote nothing. */
    ghost var troubles: nat

    /**
     * On disk is a suffix of everything the log ever held, in order, with at
     * least the latest maxBackups * maxBytes bytes of what was written.
     */
    ghost predicate Retained()
      reads this`disk, this`prior, this`written
    {
      && IsSuffix(Stream(disk, maxBackups), prior + written)
      && |Stream(disk, maxBackups)| >= Min(|written|, maxBackups * maxBytes)
    }

    /** While open: the size field is the active file's length, within the limit, and turned backups are full. */
    ghost predicate Ready()
      reads this
    {
      && 0 in disk && |disk[0]| == size <= maxBytes
      && Turning(disk)
    }

    ghost predicate Turning(disk: Disk)
      reads this`turned, this`written
    {
      && turned <= maxBackups
      && (forall j: nat :: 1 <= j <= turned ==> |Get(disk, j)| >= maxBytes)
      && (turned < maxBackups ==> |written| <= |Stream(disk, turned)|)
    }

    ghost predicate Valid()
      reads this
    {
      maxBytes > 0 && Retained() && (isOpen ==> Ready())
    }

    /** One step on a file or directory, which may fail. */
    method Step() returns (fault: bool)
      modifies this`troubles
      ensures troubles == old(troubles) + if fault then 1 else 0
    {
      fault := *;
      if fault {
        troubles := troubles + 1;
      }
    }

    /** Opens the log for append, rotating at once if it is already full. */
    constructor (disk: Disk, maxBytes: int, maxBackups: int)
      ensures Valid()
      ensures this.maxBytes == if maxBytes <= 0 then DEFAULT_MAX_LOG_BYTES else maxBytes
      ensures this.maxBackups == if maxBackups < 0 then DEFAULT_LOG_BACKUPS else maxBackups
      ensures prior == Stream(disk, this.maxBackups) && written == []
      ensures isOpen ==> size < this.maxBytes
      ensures !isOpen ==> troubles > 0
    {
      hide Stream;
      hide RotatingFileWriter.Retained;
      this.maxBytes := if maxBytes <= 0 then DEFAULT_MAX_LOG_BYTES else maxBytes;
      this.maxBackups := if maxBackups < 0 then DEFAULT_LOG_BACKUPS else maxBackups;
      var active := if 0 in disk then disk[0] else [];
      this.disk := disk[0 := active];
      isOpen, size := true, |active|;
      prior, written, turned := Stream(disk, if maxBackups < 0 then DEFAULT_LOG_BACKUPS else maxBackups), [], 0;
      troubles := 0;
      new;
      SameStream(disk, this.disk, this.maxBackups);
      NothingWritten();
      if size >= this.maxBytes {
        var ok := Rotate();
        if !ok {
          isOpen := false;
        }
      }
    }

    /**
     * Shifts the backups up, drops the oldest, and starts an empty log. Any
     * step may fail; what is on disk is then still in order, and the writer
     * accepts nothing more.
     */
    method Rotate() returns (ok: bool)
      requires maxBytes > 0 && Retained() && isOpen && 0 in disk && |disk[0]| == size >= maxBytes && Turning(disk)
      modifies this`isOpen, this`size, this`disk, this`turned, this`troubles
      ensures Retained()
      ensures troubles >= old(troubles) && (ok <==> troubles == old(troubles))
      ensures ok ==>
        && Valid() && isOpen && size == 0 && disk[0] == []
        && Stream(disk, maxBackups) == if maxBackups == 0 then [] else Stream(old(disk), maxBackups - 1)
      ensures !ok && isOpen ==> disk == old(disk) && size == old(size) && turned == old(turned)
    {
      hide Stream;
      hide IsSuffix;
      ghost var was := disk;
      KeepsEnough();
      EmptyStream();
      var fault := Step();
      if fault {
        return false;
      }
      isOpen := false;
      ghost var g := maxBackups;
      if maxBackups == 0 {
        fault := Step();
        if fault {
          return false;
        }
        disk := disk - {0};
      } else {
        ok, g := ShiftBackups();
        if disk != was {
          GapStream(was, disk, maxBackups, g);
        }
        if !ok {
          return false;
        }
      }
      GapStream(was, disk, maxBackups, 0);
      fault := Step();
      if fault {
        return false;
      }
      ghost var shifted := disk;
      disk := disk[0 := []];
      SameStream(shifted, disk, maxBackups);
      isOpen, size := true, 0;
      TurnedOver(was);
      turned := if turned < maxBackups then turned + 1 else turned;
      ok := true;
    }

    /** Renames backups upward one by one, then the active log to backup 1. */
    method ShiftBackups() returns (ok: bool, ghost g: nat)
      requires maxBackups > 0
      modifies this`disk, this`troubles
      ensures g <= maxBackups
      ensures troubles >= old(troubles) && (ok <==> troubles == old(troubles))
      ensures disk == old(disk) || Gap(old(disk), disk, maxBackups, g)
      ensures ok ==> g == 0 && Gap(old(disk), disk, maxBackups, g)
    {
      g := maxBackups;
      var fault := Step();
      if fault {
        return false, g;
      }
      disk := disk - {maxBackups};
      var i := maxBackups;
      while i > 0
        invariant 0 <= i <= maxBackups && g == i
        invariant Gap(old(disk), disk, maxBackups, i) && troubles == old(troubles)
      {
        fault := Step();
        if fault {
          return false, g;
        }
        ShiftOne(old(disk), disk, maxBackups, i);
        i := i - 1;
        g := i;
        if i in disk {
          disk := disk[i + 1 := disk[i]] - {i};
        }
      }
      ok := true;
    }

    /** Dropping the oldest backup before a full log is moved never loses what must be kept. */
    lemma KeepsEnough()
      requires maxBytes > 0 && Retained() && 0 in disk && |disk[0]| >= maxBytes && Turning(disk)
      ensures maxBackups > 0 ==> IsSuffix(Stream(disk, maxBackups - 1), prior + written)
      ensures maxBackups > 0 ==> |Stream(disk, maxBackups - 1)| >= Min(|written|, maxBackups * maxBytes)
    {
      if maxBackups > 0 {
        SuffixOfSuffix(Stream(disk, maxBackups - 1), Get(disk, maxBackups), prior + written);
        if turned < maxBackups {
          StreamGrows(disk, turned, maxBackups - 1);
        } else {
          FullStream(disk, maxBackups - 1, maxBytes);
          assert maxBackups * maxBytes == (maxBackups - 1) * maxBytes + maxBytes;
        }
      }
    }

    lemma NothingWritten()
      requires written == [] && Stream(disk, maxBackups) == prior
      ensures Retained()
    {
      assert prior + written == prior;
    }

    lemma EmptyStream()
      ensures IsSuffix([], prior + written)
      ensures forall d: Disk :: Stream(d, 0) == Get(d, 0)
    {
    }

    /** After a full shift the newest backup is the log just filled. */
    lemma TurnedOver(was: Disk)
      requires 0 in was && |was[0]| >= maxBytes && Turning(was)
      requires forall j: nat :: 1 <= j <= maxBackups ==> Get(disk, j) == Get(was, j - 1)
      requires Get(disk, 0) == []
      ensures forall j: nat :: 1 <= j <= turned + 1 && j <= maxBackups ==> |Get(disk, j)| >= maxBytes
      ensures turned < maxBackups ==> Stream(disk, turned + 1) == Stream(was, turned)
    {
      if turned < maxBackups {
        ShiftedStream(was, turned + 1);
      }
    }

    lemma {:induction false} ShiftedStream(was: Disk, b: nat)
      requires 1 <= b && forall j: nat :: 1 <= j <= b ==> Get(disk, j) == Get(was, j - 1)
      requires Get(disk, 0) == []
      ensures Stream(disk, b) == Stream(was, b - 1)
      decreases b
    {
      if b > 1 {
        ShiftedStream(was, b - 1);
      } else {
        assert Stream(disk, 0) == [];
      }
    }

    /**
     * Appends p, rotating whenever the active log is full. All of p is written
     * unless the writer was closed or a step on a file failed or wrote nothing.
     */
    method Write(p: seq<byte>) returns (n: nat, status: Status)
      requires Valid()
      modifies this`isOpen, this`size, this`disk, this`turned, this`written, this`troubles
      ensures Valid()
      ensures n <= |p| && written == old(written) + p[..n]
      ensures status == Done ==> n == |p|
      ensures status == Closed <==> !old(isOpen) && p != []
      ensures status == Failed || status == ShortWrite <==> troubles > old(troubles)
      ensures status == Done && p != [] ==> isOpen
      ensures !old(isOpen) ==> n == 0 && disk == old(disk)
    {
      hide Stream;
      hide IsSuffix;
      hide Min;
      hide Turning;
      hide Retained;
      n := 0;
      assert p[..0] == [];
      while n < |p|
        invariant 0 <= n <= |p| && Valid()
        invariant written == old(written) + p[..n]
        invariant !old(isOpen) ==> n == 0 && !isOpen && disk == old(disk)
        invariant n == 0 || isOpen
        invariant troubles == old(troubles) && (old(isOpen) ==> isOpen)
      {
        if !isOpen {
          return n, Closed;
        }
        if size >= maxBytes {
          var ok := Rotate();
          if !ok {
            return n, Failed;
          }
        }
        var chunk := if |p| - n > maxBytes - size then maxBytes - size else |p| - n;
        var count, failed := AppendSome(p[n..n + chunk]);
        assert p[..n] + p[n..n + chunk][..count] == p[..n + count];
        n := n + count;
        if failed {
          return n, Failed;
        }
        if count == 0 {
          return n, ShortWrite;
        }
      }
      status := Done;
    }

    /** Closing leaves the disk alone and ends writing. */
    method Close()
      requires Valid()
      modifies this`isOpen
      ensures Valid() && !isOpen
    {
      isOpen := false;
    }

    /** One write to the open file: some prefix of the chunk reaches it. */
    method AppendSome(chunk: seq<byte>) returns (count: nat, failed: bool)
      requires Valid() && isOpen && size + |chunk| <= maxBytes
      modifies this`size, this`disk, this`written, this`troubles
      ensures Valid() && count <= |chunk| && written == old(written) + chunk[..count]
      ensures troubles >= old(troubles) && (failed || count == 0 <==> troubles > old(troubles))
    {
      hide Stream;
      hide IsSuffix;
      count, failed := *, *;
      if count > |chunk| {
        count := |chunk|;
      }
      if failed || count == 0 {
        troubles := troubles + 1;
      }
      var more := chunk[..count];
      ghost var was := disk;
      disk := disk[0 := disk[0] + more];
      AppendStream(was, disk, maxBackups, more);
      AppendStream(was, disk, turned, more);
      SuffixAppend(Stream(was, maxBackups), prior + written, more);
      assert prior + written + more == prior + (written + more);
      written := written + more;
      size := size + count;
      if turned == maxBackups {
        FullStream(disk, turned, maxBytes);
      } else {
        StreamGrows(disk, turned, maxBackups);
      }
    }
  }
}
