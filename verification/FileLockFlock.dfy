/** The conversions between struct flock and byte ranges in fs/lock.c, in 64-bit signed
    arithmetic. */
module FileLockFlock {

  const OFF_T_MAX: int := 0x7fff_ffff_ffff_ffff
  const OFF_T_MIN: int := -0x8000_0000_0000_0000

  type Off = x: int | OFF_T_MIN <= x <= OFF_T_MAX

  /** Two's complement wrap-around. */
  function Wrap(x: int): Off { (x - OFF_T_MIN) % 0x1_0000_0000_0000_0000 + OFF_T_MIN }

  /** Where a range starts, and its length: negative for one that ends before start, zero for
      one without end. */
  datatype Flock = Flock(start: Off, len: Off)
  datatype Range = Range(start: int, end: int)

  /** file_lock_from_flock, given the offset that whence stands for. */
  function FromFlock(f: Flock, offset: Off): Range {
    var start := Wrap(f.start + offset);
    if f.len > 0 then Range(start, Wrap(Wrap(start + f.len) - 1))
    else if f.len < 0 then
      var end := Wrap(start - 1);
      Range(Wrap(Wrap(end + f.len) + 1), end)
    else Range(start, OFF_T_MAX)
  }

  /** The bytes that fcntl promises to lock. */
  function Promised(f: Flock, offset: Off): Range {
    var start := f.start + offset;
    if f.len > 0 then Range(start, start + f.len - 1)
    else if f.len < 0 then Range(start + f.len, start - 1)
    else Range(start, OFF_T_MAX)
  }

  predicate Representable(r: Range) { OFF_T_MIN <= r.start <= OFF_T_MAX && OFF_T_MIN <= r.end <= OFF_T_MAX }

  lemma WrapSmall(x: int)
    ensures Wrap(x) == x <==> OFF_T_MIN <= x <= OFF_T_MAX
  {
  }

  /** Wrapping an intermediate result does not change the final one. */
  lemma WrapTwice(x: int, y: int)
    ensures Wrap(Wrap(x) + y) == Wrap(x + y)
  {
    var m := 0x1_0000_0000_0000_0000;
    var q, q' := (x - OFF_T_MIN) / m, (x + y - OFF_T_MIN) / m;
    var r := (Wrap(x) + y - OFF_T_MIN) / m;
    assert x == Wrap(x) + q * m;
  }

  /** The range is the promised one exactly when that has representable bounds; then it is
      not empty, unless it has no end and starts past the largest offset. */
  lemma FromFlockPromised(f: Flock, offset: Off)
    ensures FromFlock(f, offset) == Promised(f, offset) <==> Representable(Promised(f, offset))
    ensures Representable(Promised(f, offset)) ==> FromFlock(f, offset).start <= FromFlock(f, offset).end
  {
    var x := f.start + offset;
    WrapSmall(x);
    if f.len > 0 {
      WrapTwice(x, f.len);
      WrapTwice(x + f.len, -1);
      WrapSmall(x + f.len - 1);
    } else if f.len < 0 {
      WrapTwice(x, -1);
      WrapTwice(x - 1, f.len);
      WrapTwice(x - 1 + f.len, 1);
      WrapSmall(x - 1);
      WrapSmall(x + f.len);
    }
  }

  /** flock_from_file_lock, as F_GETLK reports a lock. */
  function ToFlock(r: Range): Flock
    requires Representable(r)
  {
    Flock(r.start, if r.end != OFF_T_MAX then Wrap(Wrap(r.end - r.start) + 1) else 0)
  }

  /** A reported lock reads back as the same range exactly when its length can be reported. */
  lemma FlockRoundTrip(r: Range)
    requires Representable(r) && r.start <= r.end
    ensures FromFlock(ToFlock(r), 0) == r <==> r.end == OFF_T_MAX || r.end - r.start + 1 <= OFF_T_MAX
  {
    hide Wrap;
    var n := r.end - r.start + 1;
    WrapTwice(r.end - r.start, 1);
    WrapSmall(n);
    FromFlockPromised(ToFlock(r), 0);
    if r.end != OFF_T_MAX && n > OFF_T_MAX {
      LongRange(r.start, n);
    }
  }

  /** A length that wraps comes out negative and moves the start. */
  lemma LongRange(start: Off, n: int)
    requires OFF_T_MAX < n < 0x1_0000_0000_0000_0000
    ensures Wrap(n) == n - 0x1_0000_0000_0000_0000 && FromFlock(Flock(start, Wrap(n)), 0).start != start
  {
    var m := n - 0x1_0000_0000_0000_0000;
    WrapLong(n);
    LongStart(start, m);
  }

  lemma WrapLong(n: int)
    requires OFF_T_MAX < n < 0x1_0000_0000_0000_0000
    ensures Wrap(n) == n - 0x1_0000_0000_0000_0000
  {
  }

  lemma LongStart(start: Off, m: Off)
    requires m < 0
    ensures FromFlock(Flock(start, m), 0).start != start
  {
    hide Wrap;
    WrapSmall(start);
    WrapTwice(start, -1);
    WrapTwice(start - 1, m);
    WrapTwice(start - 1 + m, 1);
    WrapMoves(start, m);
  }

  lemma WrapMoves(start: Off, m: Off)
    requires m < 0
    ensures Wrap(start + m) != start
  {
  }
}
