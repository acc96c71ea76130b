// The pipe of pipe.c: a ring of PIPESIZE bytes with two 32-bit counters that wrap.
module Pipe {
  const PIPESIZE := 512
  import opened Arith

  // Bytes between the counters.
  function Held(nread: int, nwrite: int): (n: int)
    ensures 0 <= n < UINT
  {
    (nwrite - nread) % UINT
  }

  // The slot of the k-th unread byte: the wrapped counter, modulo PIPESIZE.
  function SlotOf(nread: int, k: int): (i: int)
    ensures 0 <= i < PIPESIZE
  {
    (nread + k) % UINT % PIPESIZE
  }

  // The unread bytes, oldest first.
  ghost function Unread<T>(data: seq<T>, nread: int, nwrite: int): (s: seq<T>)
    requires |data| == PIPESIZE
    ensures |s| == Held(nread, nwrite)
  {
    seq(Held(nread, nwrite), k requires 0 <= k < Held(nread, nwrite) => data[SlotOf(nread, k)])
  }

  ghost predicate CountersOk(nread: int, nwrite: int) {
    0 <= nread < UINT && 0 <= nwrite < UINT && Held(nread, nwrite) <= PIPESIZE
  }

  lemma MultiplesVanish(q: int, r: int)
    ensures (PIPESIZE * q + r) % PIPESIZE == r % PIPESIZE
  {
    var k := r / PIPESIZE;
    assert PIPESIZE * q + r == PIPESIZE * (q + k) + r % PIPESIZE;
  }

  // Since 512 divides 2^32, a wrapped counter still names the right slot.
  lemma WrappedSlot(n: int)
    ensures n % UINT % PIPESIZE == n % PIPESIZE
  {
    MultiplesVanish(8388608 * (n / UINT), n % UINT);
    assert n == PIPESIZE * (8388608 * (n / UINT)) + n % UINT;
  }

  // ... so different unread bytes are in different slots.
  lemma SlotsDiffer(nread: int, j: int, k: int)
    requires j < k < j + PIPESIZE
    ensures SlotOf(nread, j) != SlotOf(nread, k)
  {
    WrappedSlot(nread + j);
    WrappedSlot(nread + k);
  }

  // The full test is exact.
  lemma FullTest(nread: int, nwrite: int)
    requires CountersOk(nread, nwrite)
    ensures nwrite == (nread + PIPESIZE) % UINT <==> Held(nread, nwrite) == PIPESIZE
    ensures nwrite == nread <==> Held(nread, nwrite) == 0
  {
  }

  // Storing a byte when the ring is not full appends it.
  lemma Append<T>(data: seq<T>, nread: int, nwrite: int, c: T)
    requires |data| == PIPESIZE && CountersOk(nread, nwrite) && Held(nread, nwrite) < PIPESIZE
    ensures CountersOk(nread, (nwrite + 1) % UINT)
    ensures Unread(data[nwrite % PIPESIZE := c], nread, (nwrite + 1) % UINT) == Unread(data, nread, nwrite) + [c]
  {
    var n := Held(nread, nwrite);
    assert Held(nread, (nwrite + 1) % UINT) == n + 1;
    assert SlotOf(nread, n) == nwrite % PIPESIZE;
    forall k | 0 <= k < n ensures SlotOf(nread, k) != nwrite % PIPESIZE {
      SlotsDiffer(nread, k, n);
    }
  }

  // Taking a byte when the ring is not empty takes the oldest.
  lemma TakeOne<T>(data: seq<T>, nread: int, nwrite: int)
    requires |data| == PIPESIZE && CountersOk(nread, nwrite) && nread != nwrite
    ensures CountersOk((nread + 1) % UINT, nwrite)
    ensures Unread(data, nread, nwrite) == [data[nread % PIPESIZE]] + Unread(data, (nread + 1) % UINT, nwrite)
  {
    var n := Held(nread, nwrite);
    var next := (nread + 1) % UINT;
    assert Held(next, nwrite) == n - 1;
    forall k | 0 <= k < n - 1 ensures SlotOf(next, k) == SlotOf(nread, k + 1) {
      NextSlot(nread, k);
    }
  }

  lemma NextSlot(nread: int, k: nat)
    requires 0 <= nread < UINT
    ensures SlotOf((nread + 1) % UINT, k) == SlotOf(nread, k + 1)
  {
    if nread + 1 == UINT {
      assert (nread + (k + 1)) % UINT == k % UINT;
    }
  }

  // ---- Whole runs ---------------------------------------------------------

  // One end of the pipe: the descriptors that processes hold of its file, the file's reference
  // count, and whether some fileclose has dropped the last reference and not yet called pipeclose.
  datatype End = End(fds: nat, refs: int, closing: bool)

  // Every byte accepted and delivered so far, and how often the pipe has been freed, beside the
  // ring and the two ends.
  datatype State<T> = State(
    data: seq<T>, nread: int, nwrite: int, accepted: seq<T>, delivered: seq<T>,
    readOpen: bool, writeOpen: bool, reader: End, writer: End, frees: nat)

  // A writer stores a byte or a reader takes one; a descriptor is duplicated, by dup or fork, or
  // closed; and pipeclose.
  datatype Event<T> = Store(c: T) | TakeByte | Dup(writable: bool) | CloseFile(writable: bool) | CloseEnd(writable: bool)

  function EndOf<T>(s: State<T>, writable: bool): End {
    if writable then s.writer else s.reader
  }

  function WithEnd<T>(s: State<T>, writable: bool, e: End): State<T> {
    if writable then s.(writer := e) else s.(reader := e)
  }

  // What the callers can do: a process uses only the descriptors it has.
  ghost predicate May<T>(s: State<T>, e: Event<T>) {
    |s.data| == PIPESIZE && match e
    case Store(_) => s.writer.fds > 0 && s.nwrite != (s.nread + PIPESIZE) % UINT
    case TakeByte => s.reader.fds > 0 && s.nread != s.nwrite
    case Dup(w) => EndOf(s, w).fds > 0
    case CloseFile(w) => EndOf(s, w).fds > 0
    case CloseEnd(w) => EndOf(s, w).closing
  }

  // The panics of filedup and fileclose.
  ghost predicate Panics<T>(s: State<T>, e: Event<T>) {
    (e.Dup? || e.CloseFile?) && EndOf(s, e.writable).refs < 1
  }

  ghost function After<T>(s: State<T>, e: Event<T>): State<T>
    requires May(s, e)
  {
    match e
    case Store(c) =>
      s.(data := s.data[s.nwrite % PIPESIZE := c], nwrite := (s.nwrite + 1) % UINT, accepted := s.accepted + [c])
    case TakeByte => s.(nread := (s.nread + 1) % UINT, delivered := s.delivered + [s.data[s.nread % PIPESIZE]])
    case Dup(w) =>
      var end := EndOf(s, w);
      WithEnd(s, w, end.(fds := end.fds + 1, refs := end.refs + 1))
    case CloseFile(w) =>
      var end := EndOf(s, w);
      WithEnd(s, w, End(end.fds - 1, end.refs - 1, end.closing || end.refs - 1 <= 0))
    case CloseEnd(w) =>
      var readOpen, writeOpen := s.readOpen && w, s.writeOpen && !w;
      WithEnd(s, w, EndOf(s, w).(closing := false)).(readOpen := readOpen, writeOpen := writeOpen,
        frees := s.frees + if !readOpen && !writeOpen then 1 else 0)
  }

  ghost predicate Legal<T>(s: State<T>, es: seq<Event<T>>)
    decreases |es|
  {
    es == [] || (May(s, es[0]) && Legal(After(s, es[0]), es[1..]))
  }

  ghost function Exec<T>(s: State<T>, es: seq<Event<T>>): State<T>
    requires Legal(s, es)
    decreases |es|
  {
    if es == [] then s else Exec(After(s, es[0]), es[1..])
  }

  lemma {:induction false} ExecAppend<T>(s: State<T>, es: seq<Event<T>>, e: Event<T>)
    requires Legal(s, es) && May(Exec(s, es), e)
    ensures Legal(s, es + [e]) && Exec(s, es + [e]) == After(Exec(s, es), e)
    decreases |es|
  {
    if es == [] {
      assert (es + [e])[1..] == [];
    } else {
      assert (es + [e])[1..] == es[1..] + [e];
      ExecAppend(After(s, es[0]), es[1..], e);
    }
  }

  ghost predicate Fifo<T>(s: State<T>) {
    && |s.data| == PIPESIZE && CountersOk(s.nread, s.nwrite)
    && s.accepted == s.delivered + Unread(s.data, s.nread, s.nwrite)
  }

  lemma EventKeeps<T>(s: State<T>, e: Event<T>)
    requires Fifo(s) && May(s, e)
    ensures Fifo(After(s, e))
  {
    match e {
      case Store(c) => StoreKeeps(s, c);
      case TakeByte => TakeOne(s.data, s.nread, s.nwrite);
      case _ =>
    }
  }

  lemma StoreKeeps<T>(s: State<T>, c: T)
    requires Fifo(s) && May(s, Store(c))
    ensures Fifo(After(s, Store(c)))
  {
    FullTest(s.nread, s.nwrite);
    Append(s.data, s.nread, s.nwrite, c);
  }

  // Whatever the interleaving, and however often the counters wrap: what has been delivered is a
  // prefix of what was accepted, and the ring holds the rest.
  lemma {:induction false} FifoInEveryRun<T>(s: State<T>, es: seq<Event<T>>)
    requires Fifo(s) && Legal(s, es)
    ensures Fifo(Exec(s, es)) && Exec(s, es).delivered <= Exec(s, es).accepted
    ensures Held(Exec(s, es).nread, Exec(s, es).nwrite) <= PIPESIZE
    decreases |es|
  {
    if es != [] {
      EventKeeps(s, es[0]);
      FifoInEveryRun(After(s, es[0]), es[1..]);
    }
  }

  // An end counts its descriptors, and is open as long as there is one or pipeclose is to come.
  predicate EndCounted(end: End, open: bool) {
    end.refs == end.fds && (open <==> end.refs > 0 || end.closing) && !(end.refs > 0 && end.closing)
  }

  // ... and the pipe has been freed once both ends are closed.
  predicate Counted<T>(s: State<T>) {
    && EndCounted(s.reader, s.readOpen) && EndCounted(s.writer, s.writeOpen)
    && s.frees == if s.readOpen || s.writeOpen then 0 else 1
  }

  lemma CountedStep<T>(s: State<T>, e: Event<T>)
    requires Counted(s) && May(s, e)
    ensures Counted(After(s, e)) && s.frees == 0 && !Panics(s, e)
  {
    if e.CloseEnd? || e.CloseFile? || e.Dup? {
      assert EndCounted(EndOf(s, e.writable), if e.writable then s.writeOpen else s.readOpen);
    }
  }

  // Of a pipe that pipealloc has made: however the descriptors are duplicated, used and closed, no
  // reference count panics, each end is closed when its last descriptor is, and the pipe is freed
  // once, when both are, with nobody touching it after that.
  lemma {:induction false} FreedOnce<T>(s: State<T>, es: seq<Event<T>>)
    requires Counted(s) && Legal(s, es)
    ensures Counted(Exec(s, es)) && (s.frees == 1 ==> es == [])
    ensures forall e :: May(Exec(s, es), e) ==> Exec(s, es).frees == 0 && !Panics(Exec(s, es), e)
    decreases |es|
  {
    if es == [] {
      forall e | May(s, e) ensures s.frees == 0 && !Panics(s, e) { CountedStep(s, e); }
    } else {
      CountedStep(s, es[0]);
      FreedOnce(After(s, es[0]), es[1..]);
    }
  }

  // What a locked section of pipewrite or piperead ends with.
  datatype Outcome = Done | Sleeps | Fails

  // The pipe and the two files that pipealloc makes for it.
  class PipeBuffer<T(0)> {
    var data: array<T>
    var nread: int
    var nwrite: int
    var readOpen: bool
    var writeOpen: bool
    var readRef: int         // the ref of the file for reading, and of that for writing
    var writeRef: int

    // The machine's state behind the fields.
    ghost var now: State<T>

    ghost predicate Valid()
      reads this, data
    {
      && Fifo(now) && Counted(now) && data.Length == PIPESIZE
      && now == State(data[..], nread, nwrite, now.accepted, now.delivered, readOpen, writeOpen,
                      now.reader.(refs := readRef), now.writer.(refs := writeRef), now.frees)
    }

    // pipealloc, when there are two files and a page.
    constructor ()
      ensures Valid() && fresh(data)
      ensures now == State(data[..], 0, 0, [], [], true, true, End(1, 1, false), End(1, 1, false), 0)
    {
      data := new T[PIPESIZE];
      nread, nwrite, readOpen, writeOpen, readRef, writeRef := 0, 0, true, true, 1, 1;
      new;
      now := State(data[..], 0, 0, [], [], true, true, End(1, 1, false), End(1, 1, false), 0);
    }

    // p->data[p->nwrite++ % PIPESIZE] = c, and the reverse.
    method Put(c: T)
      requires Valid() && May(now, Store(c))
      modifies this`nwrite, this`now, data
      ensures Valid() && now == After(old(now), Store(c))
    {
      EventKeeps(now, Store(c));
      now := After(now, Store(c));
      data[nwrite % PIPESIZE] := c;
      nwrite := (nwrite + 1) % UINT;
    }

    method Get() returns (c: T)
      requires Valid() && May(now, TakeByte)
      modifies this`nread, this`now
      ensures Valid() && now == After(old(now), TakeByte) && now.delivered == old(now).delivered + [c]
    {
      EventKeeps(now, TakeByte);
      now := After(now, TakeByte);
      c := data[nread % PIPESIZE];
      nread := (nread + 1) % UINT;
    }

    // pipewrite from its i-th byte on, up to the point where it sleeps, fails or is done.
    method WriteSection(addr: seq<T>, i: nat, killed: bool) returns (j: nat, r: Outcome)
      requires Valid() && i <= |addr| && now.writer.fds > 0
      modifies this`nwrite, this`now, data
      ensures Valid() && i <= j <= |addr| && now.accepted == old(now).accepted + addr[i..j]
      ensures Legal(old(now), Stores(addr[i..j])) && now == Exec(old(now), Stores(addr[i..j]))
      ensures r == Done <==> j == |addr|
      ensures r != Done ==> Held(nread, nwrite) == PIPESIZE && (r == Fails <==> !readOpen || killed)
    {
      ghost var s := now;
      j, r := i, Done;
      while j < |addr|
        invariant i <= j <= |addr| && Valid() && Legal(s, Stores(addr[i..j])) && now == Exec(s, Stores(addr[i..j]))
      {
        StoresAccept(s, addr[i..j]);
        FullTest(nread, nwrite);
        if nwrite == (nread + PIPESIZE) % UINT {
          r := if !readOpen || killed then Fails else Sleeps;
          break;
        }
        StoreNext(s, addr[i..j], addr[j]);
        assert addr[i..j + 1] == addr[i..j] + [addr[j]];
        Put(addr[j]);
        j := j + 1;
      }
      StoresAccept(s, addr[i..j]);
    }

    // piperead of up to n bytes, up to the point where it sleeps, fails or is done.
    method ReadSection(n: nat, killed: bool) returns (bytes: seq<T>, r: Outcome)
      requires Valid() && now.reader.fds > 0
      modifies this`nread, this`now
      ensures Valid() && now.delivered == old(now).delivered + bytes
      ensures Legal(old(now), Takes(|bytes|)) && now == Exec(old(now), Takes(|bytes|))
      ensures r == Done ==> |bytes| == Min(n, Held(old(nread), nwrite))
      ensures r == Done <==> old(nread) != nwrite || !writeOpen
      ensures r != Done ==> bytes == [] && (r == Fails <==> killed)
    {
      ghost var s := now;
      bytes, r := [], Done;
      if nread == nwrite && writeOpen {
        r := if killed then Fails else Sleeps;
        return;
      }
      while |bytes| < n
        invariant |bytes| <= n && Valid() && Legal(s, Takes(|bytes|)) && now == Exec(s, Takes(|bytes|))
        invariant now.delivered == s.delivered + bytes && now.reader.fds > 0
        invariant Held(nread, nwrite) == Held(s.nread, nwrite) - |bytes|
      {
        FullTest(nread, nwrite);
        if nread == nwrite { break; }
        ExecAppend(s, Takes(|bytes|), TakeByte);
        assert Takes<T>(|bytes| + 1) == Takes(|bytes|) + [TakeByte];
        var c := Get();
        bytes := bytes + [c];
      }
    }

    // filedup of one of the files.
    method FileDup(writable: bool)
      requires Valid() && May(now, Dup(writable))
      modifies this`readRef, this`writeRef, this`now
      ensures Valid() && now == After(old(now), Dup(writable))
    {
      CountedStep(now, Dup(writable));
      EventKeeps(now, Dup(writable));
      now := After(now, Dup(writable));
      if writable {
        assert writeRef >= 1;    // the panic
        writeRef := writeRef + 1;
      } else {
        assert readRef >= 1;
        readRef := readRef + 1;
      }
    }

    // fileclose of one of the files as far as it holds ftable.lock: whether pipeclose is to come.
    method FileClose(writable: bool) returns (last: bool)
      requires Valid() && May(now, CloseFile(writable))
      modifies this`readRef, this`writeRef, this`now
      ensures Valid() && now == After(old(now), CloseFile(writable))
      ensures last <==> May(now, CloseEnd(writable))
    {
      CountedStep(now, CloseFile(writable));
      EventKeeps(now, CloseFile(writable));
      now := After(now, CloseFile(writable));
      if writable {
        assert writeRef >= 1;    // the panic
        writeRef := writeRef - 1;
        last := writeRef <= 0;
      } else {
        assert readRef >= 1;
        readRef := readRef - 1;
        last := readRef <= 0;
      }
    }

    // pipeclose: freed says that the page goes back.
    method PipeClose(writable: bool) returns (freed: bool)
      requires Valid() && May(now, CloseEnd(writable))
      modifies this`readOpen, this`writeOpen, this`now
      ensures Valid() && now == After(old(now), CloseEnd(writable))
      ensures freed <==> now.frees == 1
      ensures freed <==> now.reader == now.writer == End(0, 0, false)
    {
      CountedStep(now, CloseEnd(writable));
      EventKeeps(now, CloseEnd(writable));
      now := After(now, CloseEnd(writable));
      if writable {
        writeOpen := false;
      } else {
        readOpen := false;
      }
      freed := !readOpen && !writeOpen;
    }
  }

  // The events of a locked section.
  function Stores<T>(bytes: seq<T>): seq<Event<T>> {
    seq(|bytes|, k requires 0 <= k < |bytes| => Store(bytes[k]))
  }

  function Takes<T>(n: nat): seq<Event<T>> {
    seq(n, _ => TakeByte)
  }

  lemma {:induction false} StoresAccept<T>(s: State<T>, bytes: seq<T>)
    requires Legal(s, Stores(bytes))
    ensures var s' := Exec(s, Stores(bytes)); s'.accepted == s.accepted + bytes && s'.writer == s.writer
    decreases |bytes|
  {
    if bytes != [] {
      assert Stores(bytes)[1..] == Stores(bytes[1..]);
      StoresAccept(After(s, Store(bytes[0])), bytes[1..]);
    }
  }

  lemma StoreNext<T>(s: State<T>, bytes: seq<T>, c: T)
    requires Legal(s, Stores(bytes)) && May(Exec(s, Stores(bytes)), Store(c))
    ensures Legal(s, Stores(bytes + [c])) && Exec(s, Stores(bytes + [c])) == After(Exec(s, Stores(bytes)), Store(c))
  {
    assert Stores(bytes + [c]) == Stores(bytes) + [Store(c)];
    ExecAppend(s, Stores(bytes), Store(c));
  }
}
