/** A file coming in over the serial port: into a part file, checked, and only then put in the place of the old one. */
module Upload {
  import opened Basics
  import opened Bits
  import opened Crc

  const CHUNK: nat := 512

  type Content = Option<seq<Byte>>

  /** What is next of a list of numbers, nought when there are no more. */
  function Head(s: seq<nat>): nat {
    if s == [] then 0 else s[0]
  }

  function Rest<T>(s: seq<T>): seq<T> {
    if s == [] then [] else s[1..]
  }

  /** How many bytes one read brings, of those wanted and those there. */
  function Brought(want: nat, there: nat, splits: seq<nat>): nat {
    Least(Least(Head(splits), want), there)
  }

  /** What the host sends, and how the port splits it: at most so many bytes at each read, and none where it is nought
      or there is no more to say. */
  class Port {
    var data: seq<Byte>
    var pos: nat
    var splits: seq<nat>

    constructor (d: seq<Byte>, s: seq<nat>)
      ensures data == d && pos == 0 && splits == s
    {
      data, pos, splits := d, 0, s;
    }

    method Read(want: nat) returns (got: seq<Byte>)
      requires pos <= |data|
      modifies this
      ensures data == old(data) && splits == Rest(old(splits))
      ensures pos == old(pos) + Brought(want, |data| - old(pos), old(splits)) <= |data|
      ensures got == data[old(pos)..pos]
    {
      var n := Brought(want, |data| - pos, splits);
      got := data[pos..pos + n];
      pos := pos + n;
      splits := Rest(splits);
    }
  }

  predicate NextFails(failures: seq<bool>) {
    failures != [] && failures[0]
  }

  /** The file's place, the part file beside it, and what will go wrong. */
  class Disk {
    var dest: Content
    var part: Content
    /** Whether each write in turn fails. */
    var failures: seq<bool>
    const opens: bool
    const closes: bool
    const renames: bool
    /** Everything that has been in the file's place since. */
    ghost var been: seq<Content>

    constructor (d: Content, p: Content, f: seq<bool>, o: bool, c: bool, r: bool)
      ensures dest == d && part == p && failures == f && opens == o && closes == c && renames == r && been == []
    {
      dest, part, failures, opens, closes, renames, been := d, p, f, o, c, r, [];
    }

    method Open() returns (ok: bool)
      modifies `part
      ensures ok == opens && part == if ok then Some([]) else old(part)
    {
      if opens {
        part := Some([]);
      }
      return opens;
    }

    method Write(bytes: seq<Byte>) returns (ok: bool)
      requires part.Some?
      modifies `part, `failures
      ensures part.Some? && (ok ==> part.value == old(part).value + bytes)
      ensures ok == !NextFails(old(failures)) && failures == Rest(old(failures))
    {
      ok := !NextFails(failures);
      failures := Rest(failures);
      if ok {
        part := Some(part.value + bytes);
      }
    }

    method UnlinkPart()
      modifies `part
      ensures part == None
    {
      part := None;
    }

    method UnlinkDest()
      modifies `dest, `been
      ensures dest == None && been == old(been) + [None]
    {
      dest, been := None, been + [None];
    }

    method Rename() returns (ok: bool)
      requires part.Some? && dest == None
      modifies `dest, `part, `been
      ensures ok == renames
      ensures if ok then dest == old(part) && part == None && been == old(been) + [dest]
              else dest == None && part == old(part) && been == old(been)
    {
      if renames {
        dest, part, been := part, None, been + [part];
      }
      return renames;
    }
  }

  function Nought(): Word {
    seq(32, _ => false)
  }

  // ------------------------------------------------------------------ what comes of so many bytes asked for

  /** How many bytes the port gives to reads of a chunk each before it stops. */
  function Sent(splits: seq<nat>): nat {
    if Head(splits) == 0 then 0 else Least(Head(splits), CHUNK) + Sent(Rest(splits))
  }

  /** How many of so many bytes come: all of them, or all there are, or all there were before the port stopped. */
  function Comes(size: nat, there: nat, splits: seq<nat>): nat {
    ComesCovered(size, there, splits, 3)
  }

  /** The same under covers, which a proof takes off where it has to look. */
  function ComesCovered(size: nat, there: nat, splits: seq<nat>, covers: nat): nat
    decreases covers, size
  {
    if covers > 0 then ComesCovered(size, there, splits, covers - 1) else Least(Least(size, there), Sent(splits))
  }

  lemma OpenComes(size: nat, there: nat, splits: seq<nat>)
    ensures Comes(size, there, splits) == Least(Least(size, there), Sent(splits))
  {
    assert ComesCovered(size, there, splits, 1) == ComesCovered(size, there, splits, 0);
    assert ComesCovered(size, there, splits, 2) == ComesCovered(size, there, splits, 1);
  }

  /** Whether every write goes through of what comes in so many reads. Covered over, as what comes does not depend
      on it. */
  predicate WritesGo(size: nat, there: nat, splits: seq<nat>, failures: seq<bool>) {
    WritesGoCovered(size, there, splits, failures, 3)
  }

  /** The same under covers, which a proof takes off where it has to look. */
  predicate WritesGoCovered(size: nat, there: nat, splits: seq<nat>, failures: seq<bool>, covers: nat)
    decreases size, covers
  {
    if covers > 0 then WritesGoCovered(size, there, splits, failures, covers - 1)
    else
      var k := Brought(Least(size, CHUNK), there, splits);
      k == 0 || (!NextFails(failures) && WritesGoCovered(size - k, there - k, Rest(splits), Rest(failures), 3))
  }

  lemma OpenWritesGo(size: nat, there: nat, splits: seq<nat>, failures: seq<bool>)
    ensures var k := Brought(Least(size, CHUNK), there, splits);
            WritesGo(size, there, splits, failures) <==>
              k == 0 || (!NextFails(failures) && WritesGo(size - k, there - k, Rest(splits), Rest(failures)))
  {
    assert WritesGoCovered(size, there, splits, failures, 1) == WritesGoCovered(size, there, splits, failures, 0);
    assert WritesGoCovered(size, there, splits, failures, 2) == WritesGoCovered(size, there, splits, failures, 1);
  }

  /** A read brings nothing exactly where nothing comes; otherwise what comes is that and what comes after it. */
  lemma OneRead(size: nat, there: nat, splits: seq<nat>)
    requires size > 0
    ensures var k := Brought(Least(size, CHUNK), there, splits);
            && k <= size && k <= there && (k == 0 <==> Comes(size, there, splits) == 0)
            && (k > 0 ==> Comes(size, there, splits) == k + Comes(size - k, there - k, Rest(splits)))
  {
    var k := Brought(Least(size, CHUNK), there, splits);
    OpenComes(size, there, splits);
    OpenComes(size - k, there - k, Rest(splits));
  }

  lemma {:induction false} SentAll(splits: seq<nat>, size: nat)
    requires |splits| >= size && forall i :: 0 <= i < size ==> splits[i] > 0
    ensures Sent(splits) >= size
  {
    if size > 0 { SentAll(splits[1..], size - 1); }
  }

  /** However the port splits it, all of a file that was sent comes from a port that goes on giving something. */
  lemma AllComes(size: nat, there: nat, splits: seq<nat>)
    requires there >= size && |splits| >= size && forall i :: 0 <= i < size ==> splits[i] > 0
    ensures Comes(size, there, splits) == size
  {
    SentAll(splits, size);
    OpenComes(size, there, splits);
  }

  /** A port that gives a chunk or more to every read gives a chunk of 512 bytes and no more. */
  lemma {:induction false} SentFull(splits: seq<nat>)
    requires forall i :: 0 <= i < |splits| ==> splits[i] >= 512
    ensures Sent(splits) == 512 * |splits|
  {
    if splits != [] { SentFull(splits[1..]); }
  }

  lemma FullReads(size: nat, there: nat, splits: seq<nat>)
    requires forall i :: 0 <= i < |splits| ==> splits[i] >= 512
    ensures Comes(size, there, splits) == Least(Least(size, there), 512 * |splits|)
  {
    SentFull(splits);
    OpenComes(size, there, splits);
  }

  /** They all go through where no write fails, */
  lemma {:induction false} NoneFail(size: nat, there: nat, splits: seq<nat>, failures: seq<bool>)
    requires forall i :: 0 <= i < |failures| ==> !failures[i]
    ensures WritesGo(size, there, splits, failures)
    decreases size
  {
    OpenWritesGo(size, there, splits, failures);
    var k := Brought(Least(size, CHUNK), there, splits);
    if k > 0 { NoneFail(size - k, there - k, Rest(splits), Rest(failures)); }
  }

  /** and do not where there is one to make and the first fails. */
  lemma FirstFails(size: nat, there: nat, splits: seq<nat>, failures: seq<bool>)
    requires size > 0 && Comes(size, there, splits) > 0 && failures != [] && failures[0]
    ensures !WritesGo(size, there, splits, failures)
  {
    OneRead(size, there, splits);
    OpenWritesGo(size, there, splits, failures);
  }

  /** The checksum starts from nought. */
  lemma NoughtIs(i: nat)
    requires i < 32
    ensures !Nought()[i]
  {
  }

  /** Take in what the host has yet to send, and forget it: all that comes. */
  method Drain(port: Port, size: nat) returns (left: nat)
    requires port.pos <= |port.data|
    modifies port
    ensures port.data == old(port.data) && old(port.pos) <= port.pos <= |port.data|
    ensures port.pos - old(port.pos) == size - left == Comes(size, |port.data| - old(port.pos), old(port.splits))
  {
    left := size;
    ghost var all := Comes(size, |port.data| - port.pos, port.splits);
    while left > 0
      invariant port.data == old(port.data) && old(port.pos) <= port.pos <= |port.data|
      invariant port.pos - old(port.pos) == size - left
      invariant size - left + Comes(left, |port.data| - port.pos, port.splits) == all
      decreases left
    {
      OneRead(left, |port.data| - port.pos, port.splits);
      var got := port.Read(Least(left, CHUNK));
      if got == [] {
        return;
      }
      left := left - |got|;
    }
    OpenComes(0, |port.data| - port.pos, port.splits);
  }

  lemma MoreOf(data: seq<Byte>, from: nat, p: nat, q: nat, sum: Word)
    requires from <= p <= q <= |data| && sum == Checksum(Nought(), data[from..p])
    ensures data[from..q] == data[from..p] + data[p..q]
    ensures Checksum(sum, data[p..q]) == Checksum(Nought(), data[from..q])
  {
    InPieces(Nought(), data[from..p], data[p..q]);
  }

  lemma OneChunk(size: nat, there: nat, splits: seq<nat>, failures: seq<bool>)
    requires size > 0
    ensures var k := Brought(Least(size, CHUNK), there, splits);
            && k <= size && k <= there
            && Comes(size, there, splits) == k + (if k == 0 then 0 else Comes(size - k, there - k, Rest(splits)))
            && (WritesGo(size, there, splits, failures) <==>
                  k == 0 || (!NextFails(failures) && WritesGo(size - k, there - k, Rest(splits), Rest(failures))))
  {
    OneRead(size, there, splits);
    OpenWritesGo(size, there, splits, failures);
  }

  /** What came in since. */
  ghost function Came(port: Port, from: nat): seq<Byte>
    requires from <= port.pos <= |port.data|
    reads port
  {
    port.data[from..port.pos]
  }

  /** What is still to come of so many bytes. */
  ghost function Coming(port: Port, left: nat): nat
    requires port.pos <= |port.data|
    reads port
  {
    Comes(left, |port.data| - port.pos, port.splits)
  }

  /** Whether every write of them goes through. */
  ghost predicate AllWritten(port: Port, disk: Disk, left: nat)
    requires port.pos <= |port.data|
    reads port, disk`failures
  {
    WritesGo(left, |port.data| - port.pos, port.splits, disk.failures)
  }

  /** What has been taken in is in the part file and in the checksum. */
  ghost predicate TakenIn(port: Port, disk: Disk, from: nat, crc: Word)
    requires from <= port.pos <= |port.data|
    reads port, disk`part
  {
    disk.part == Some(Came(port, from)) && crc == Checksum(Nought(), Came(port, from))
  }

  /** One chunk at most. */
  method ReadChunk(port: Port, left: nat, ghost failures: seq<bool>) returns (chunk: seq<Byte>)
    requires port.pos <= |port.data| && left > 0
    modifies port
    ensures port.data == old(port.data) && port.pos == old(port.pos) + |chunk| <= |port.data| && |chunk| <= left
    ensures chunk == port.data[old(port.pos)..port.pos]
    ensures old(Coming(port, left)) == |chunk| + if chunk == [] then 0 else Coming(port, left - |chunk|)
    ensures WritesGo(left, |port.data| - old(port.pos), old(port.splits), failures) <==>
              chunk == []
              || (!NextFails(failures)
                  && WritesGo(left - |chunk|, |port.data| - port.pos, port.splits, Rest(failures)))
  {
    OneChunk(left, |port.data| - port.pos, port.splits, failures);
    chunk := port.Read(Least(left, CHUNK));
  }

  /** What was read is taken into the checksum, and written. */
  method KeepChunk(port: Port, disk: Disk, chunk: seq<Byte>, sum: Word, ghost from: nat)
    returns (crc: Word, written: bool)
    requires from + |chunk| <= port.pos <= |port.data| && chunk == port.data[port.pos - |chunk|..port.pos]
    requires disk.part == Some(port.data[from..port.pos - |chunk|])
    requires sum == Checksum(Nought(), port.data[from..port.pos - |chunk|])
    modifies disk`part, disk`failures
    ensures written == !NextFails(old(disk.failures)) && disk.failures == Rest(old(disk.failures)) && disk.part.Some?
    ensures written ==> TakenIn(port, disk, from, crc)
  {
    MoreOf(port.data, from, port.pos - |chunk|, port.pos, sum);
    crc := Crc32(sum, chunk);
    written := disk.Write(chunk);
  }

  /** Take in so many bytes: all that come are read, whatever becomes of writing them. What was written is what was read
      where every write went through, and the checksum is of all of it, however the port split it. */
  method Receive(port: Port, disk: Disk, size: nat) returns (ok: bool, left: nat, crc: Word)
    requires port.pos <= |port.data| && disk.part == Some([])
    modifies port, disk`part, disk`failures
    ensures port.data == old(port.data) && old(port.pos) <= port.pos <= |port.data| && disk.part.Some?
    ensures port.pos - old(port.pos) == size - left == old(Coming(port, size))
    ensures ok <==> left == 0 && old(AllWritten(port, disk, size))
    ensures ok ==> disk.part.value == Came(port, old(port.pos)) && crc == Checksum(Nought(), disk.part.value)
  {
    ghost var from, all, go := port.pos, Coming(port, size), AllWritten(port, disk, size);
    left, ok, crc := size, true, Nought();
    NoneTaken(port, disk);
    while left > 0
      invariant port.data == old(port.data) && from <= port.pos <= |port.data| && ok
      invariant port.pos - from == size - left && size - left + Coming(port, left) == all
      invariant AllWritten(port, disk, left) == go && TakenIn(port, disk, from, crc)
      decreases left
    {
      var got := ReadChunk(port, left, disk.failures);
      if got == [] {
        return false, left, crc;
      }
      var sum, written := KeepChunk(port, disk, got, crc, from);
      if !written {
        left := Drain(port, left - |got|);
        return false, left, crc;
      }
      left, crc := left - |got|, sum;
    }
    OpenComes(0, |port.data| - port.pos, port.splits);
    OpenWritesGo(0, |port.data| - port.pos, port.splits, disk.failures);
  }

  lemma NoneTaken(port: Port, disk: Disk)
    requires port.pos <= |port.data| && disk.part == Some([])
    ensures TakenIn(port, disk, port.pos, Nought())
  {
    NotNot(Nought());
    assert Came(port, port.pos) == [];
  }

  datatype Reply = Ok | ErrOpen | ErrShort | ErrWrite | ErrCrc(crc: Word) | ErrRename

  /** One upload, whatever an earlier one may have left of its part file. All of its bytes that come are read from the
      port, whatever the disk does, and it is answered by what went wrong first; the file is replaced by all of them if
      they are whole and right, and is otherwise as it was, or gone where it could not be put back. */
  method PutFile(port: Port, disk: Disk, size: nat, want: Word) returns (reply: Reply)
    requires port.pos <= |port.data|
    modifies port, disk
    ensures port.data == old(port.data) && old(port.pos) <= port.pos <= |port.data|
    ensures port.pos - old(port.pos)
            == if disk.opens then Comes(size, |port.data| - old(port.pos), old(port.splits)) else 0
    ensures var went := WritesGo(size, |port.data| - old(port.pos), old(port.splits), old(disk.failures));
            var crc := Checksum(Nought(), port.data[old(port.pos)..port.pos]);
            reply == if !disk.opens then ErrOpen
                     else if port.pos - old(port.pos) < size then ErrShort
                     else if !(went && disk.closes) then ErrWrite
                     else if crc != want then ErrCrc(crc)
                     else if !disk.renames then ErrRename
                     else Ok
    ensures disk.part == if reply.ErrOpen? then old(disk.part) else None
    ensures disk.dest == match reply
                         case Ok => Some(port.data[old(port.pos)..port.pos])
                         case ErrRename => None
                         case _ => old(disk.dest)
    ensures disk.been == old(disk.been) + match reply
                                          case Ok => [None, Some(port.data[old(port.pos)..port.pos])]
                                          case ErrRename => [None]
                                          case _ => []
  {
    var ready := disk.Open();
    if !ready {
      return ErrOpen;
    }
    var ok, left, crc := Receive(port, disk, size);
    ok := disk.closes && ok;
    if !ok || left > 0 {
      disk.UnlinkPart();
      return if left > 0 then ErrShort else ErrWrite;
    }
    if crc != want {
      disk.UnlinkPart();
      return ErrCrc(crc);
    }
    disk.UnlinkDest();
    var renamed := disk.Rename();
    if !renamed {
      disk.UnlinkPart();
      return ErrRename;
    }
    return Ok;
  }
}
