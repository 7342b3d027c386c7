/** The demonstration scenarios of the driver program, replayed against the
  * model: a fresh world, one buffer of 100 `int`s per vector, and the values
  * the driver prints returned as results. */
module Scenarios {
  import opened CowVector

  /** `+=` on `int`. */
  function IntPlus(a: int, b: int): (r: int)
  {
    a + b
  }

  /** A fresh COW vector of 100 elements over a fresh buffer `data`, filled
    * with `c`, alone in the world. */
  method Filled(c: int) returns (data: array<int>, x: SGVector<int>)
    ensures fresh(data) && fresh(x) && x.refcount != null && fresh(x.refcount)
    ensures Consistent({x}) && x.vector == data && x.vlen == 100 && x.isCow
    ensures x.refcount.count == 1
    ensures x.Contents() == seq(100, _ => c)
  {
    data := new int[100];
    x := new SGVector(data, 100, true, {});
    assert {} + {x} == {x};
    x.SetConst(c, {x});
  }

  /** `Filled(c)` and a copy `y` of it: one buffer, one counter at 2. */
  method SharedPair(c: int) returns (data: array<int>, x: SGVector<int>, y: SGVector<int>)
    ensures fresh(data) && fresh(x) && fresh(y) && x.refcount != null && fresh(x.refcount)
    ensures Consistent({x, y}) && x != y
    ensures x.vector == data == y.vector && x.vlen == 100 == y.vlen && x.isCow && y.isCow
    ensures x.refcount == y.refcount && x.refcount.count == 2
    ensures x.Contents() == seq(100, _ => c) == y.Contents()
  {
    data, x := Filled(c);
    y := new SGVector.Copy(x, {x});
    assert {x} + {y} == {x, y};
    SharersReadAlike({x, y}, x, y);
  }

  /** A COW write through `y`, one of two sharers of `data`: `y` moves to a
    * fresh buffer and counter of its own, and `x` keeps `data` and its
    * elements, now as sole holder. */
  method WriteOneSharer(data: array<int>, x: SGVector<int>, y: SGVector<int>, c: int)
    requires Consistent({x, y}) && x != y
    requires x.vector == data == y.vector && x.vlen == 100 == y.vlen && x.isCow && y.isCow
    requires x.refcount == y.refcount && x.refcount.count == 2
    modifies y, y.refcount, data
    ensures Consistent({x, y}) && x.vector == data && y.vector != data
    ensures x.vlen == 100 == y.vlen && x.isCow && y.isCow
    ensures x.refcount == old(x.refcount) && x.refcount.count == 1
    ensures y.refcount != null && fresh(y.refcount) && y.refcount.count == 1
    ensures y.vector != null && fresh(y.vector)
    ensures x.Contents() == old(x.Contents()) && y.Contents() == seq(100, _ => c)
  {
    y.SetConst(c, {x, y});
  }

  /** Two sole holders write in place: each keeps its buffer and counter,
    * and sees only its own write. */
  method WriteBothOwners(x: SGVector<int>, y: SGVector<int>, cx: int, cy: int)
    requires Consistent({x, y}) && x != y && x.isCow && y.isCow
    requires x.vector != null && y.vector != null && x.vector != y.vector
    requires x.refcount.count == 1 && y.refcount.count == 1 && x.vlen == 100 == y.vlen
    modifies x, x.refcount, x.vector, y, y.refcount, y.vector
    ensures Consistent({x, y})
    ensures x.vector == old(x.vector) && y.vector == old(y.vector)
    ensures x.Contents() == seq(100, _ => cx) && y.Contents() == seq(100, _ => cy)
  {
    x.SetConst(cx, {x, y});
    y.SetConst(cy, {x, y});
  }

  /** Two COW vectors of 100 elements, `x` over `data` and `y` over `data2`,
    * each the sole holder of its buffer. */
  method Separate() returns (data: array<int>, x: SGVector<int>, data2: array<int>, y: SGVector<int>)
    ensures fresh(data) && fresh(x) && fresh(data2) && fresh(y) && x != y && data != data2
    ensures x.refcount != null && fresh(x.refcount) && y.refcount != null && fresh(y.refcount)
    ensures Consistent({x, y}) && x.vector == data && y.vector == data2
    ensures x.vlen == 100 == y.vlen && x.isCow && y.isCow
    ensures x.refcount.count == 1 && y.refcount.count == 1
  {
    data := new int[100];
    x := new SGVector(data, 100, true, {});
    assert {} + {x} == {x};
    data2 := new int[100];
    y := new SGVector(data2, 100, true, {x});
    assert {x} + {y} == {x, y};
  }

  /** Both vectors of a consistent pair go out of scope: each frees its own
    * buffer, `y`'s first. */
  method ReleaseBoth(data: array<int>, x: SGVector<int>, data2: array<int>, y: SGVector<int>)
    returns (ghost xFreed: array?<int>, ghost yFreed: array?<int>)
    requires Consistent({x, y}) && x != y && x.vector == data && y.vector == data2
    requires x.refcount.count == 1 && y.refcount.count == 1
    modifies x, x.refcount, y, y.refcount
    ensures xFreed == data && yFreed == data2
  {
    SoleHolder({x, y}, x);
    yFreed := y.Destroy({x, y});
    assert {x, y} - {y} == {x};
    xFreed := x.Destroy({x});
  }

  /** cow_singleref_write: an unshared COW vector is filled in place, no copy. */
  method SingleRefWrite() returns (keptBuffer: bool, count: int, first: int)
    ensures keptBuffer && count == 1 && first == 25
  {
    var data := new int[100];
    var x := new SGVector(data, 100, true, {});
    assert {} + {x} == {x};
    x.SetConst(25, {x});
    keptBuffer := x.ConstVector() == data;
    count := x.ReferenceCount();
    first := x.GetElement(0);
  }

  /** cow_multiref_write: a copy shares the buffer (count 2) until it is
    * written; then it diverges while the original still owns `data`. */
  method MultiRefWrite() returns (x0: int, y0: int, d0: int, shared: int,
                                  x1: int, y1: int, d1: int, xCount: int, yCount: int,
                                  x2: int, y2: int, d2: int)
    ensures x0 == 24 && y0 == 24 && d0 == 24 && shared == 2
    ensures x1 == 24 && y1 == 5 && d1 == 24 && xCount == 1 && yCount == 1
    ensures x2 == 3 && y2 == 4 && d2 == 3
  {
    var data, x, y := SharedPair(24);
    x0, y0, d0 := x.GetElement(0), y.GetElement(0), data[0];
    shared := x.ReferenceCount();

    WriteOneSharer(data, x, y, 5);
    x1, y1, d1 := x.GetElement(0), y.GetElement(0), data[0];
    xCount := x.ReferenceCount();
    yCount := y.ReferenceCount();

    WriteBothOwners(x, y, 3, 4);
    x2, y2, d2 := x.GetElement(0), y.GetElement(0), data[0];
  }

  /** cow_side_effect: reading through the non-const `operator[]` of a copy
    * still detaches it; afterwards each vector holds its own buffer. */
  method SideEffect() returns (y0: int, copied: bool, xCount: int, yCount: int)
    ensures y0 == 0 && copied && xCount == 1 && yCount == 1
  {
    var data, x, y := SharedPair(0);
    var both := {x, y};
    var buf := y.ElementRef(0, both);
    y0 := buf[0];
    copied := y.ConstVector() != data;
    xCount := x.ReferenceCount();
    yCount := y.ReferenceCount();
    SoleHolder(both, x);
  }

  /** cow_const_effect as written: `y` is built over `data`, the buffer `x`
    * already owns, so a write through `y` (unshared, so not detached)
    * changes what the const `x` reads. */
  method ConstEffectAsWritten() returns (xAfter: int)
    ensures xAfter == 3
  {
    var data := new int[100];
    var x := new SGVector(data, 100, true, {});
    var data2 := new int[100];
    var y := new SGVector(data, 100, true, {});
    assert {} + {y} == {y};
    var yVector := y.GetVector({y});
    yVector[0] := 3;
    xAfter := x.GetElement(0);
  }

  /** cow_const_effect with `y` built over `data2`: the write through `y`
    * leaves `x` as it was. */
  method ConstEffect() returns (xBefore: int, xAfter: int, yAfter: int)
    ensures xAfter == xBefore && yAfter == 3
  {
    var data := new int[100];
    var x := new SGVector(data, 100, true, {});
    assert {} + {x} == {x};
    var data2 := new int[100];
    var y := new SGVector(data2, 100, true, {x});
    var both := {x, y};
    assert {x} + {y} == both;
    xBefore := x.GetElement(0);
    var yVector := y.GetVector(both);
    yVector[0] := 3;
    xAfter := x.GetElement(0);
    yAfter := y.GetElement(0);
  }

  /** cow_const_effect2 as written: `y` is built over `data` too, so two
    * counters, each at 1, own one buffer. `y.add(x)` does not detach (`y`'s
    * count is 1), so it doubles `data` in place and `x` reads the doubled
    * element as well. When both go out of scope each `unref` takes the "last
    * holder" branch and frees `data`: the pair breaks the ownership invariant
    * (`brokenWorld`) and `data` is released twice. */
  method ConstEffect2AsWritten() returns (sameBuffer: bool, xCount: int, yCount: int,
                                          yVal: int, xVal: int, yRelease: int, xRelease: int,
                                          ghost before: int,
                                          ghost brokenWorld: bool, ghost data: array<int>,
                                          ghost yFreed: array?<int>, ghost xFreed: array?<int>)
    ensures sameBuffer && xCount == 1 && yCount == 1 && yRelease == 0 && xRelease == 0
    ensures yVal == before + before && xVal == yVal
    ensures brokenWorld && yFreed == data && xFreed == data
  {
    var buffer := new int[100];
    data := buffer;
    var x := new SGVector(buffer, 100, true, {});
    var data2 := new int[100];
    var y := new SGVector(buffer, 100, true, {});
    sameBuffer := x.ConstVector() == y.ConstVector();
    TwoOwnersInconsistent(x, y);
    brokenWorld := !Consistent({x, y});
    xCount := x.ReferenceCount();
    yCount := y.ReferenceCount();
    before := buffer[2];
    // `y.add(x)`, step by step as `Add` does it: no world holds both
    // handles consistently, so `y` detaches (or not) within its own world,
    // and `x`'s buffer is read through the const path.
    var xv := x.ConstVector();
    var p := y.GetVector({y});
    AddPrefix(p, xv, 100, IntPlus, {y});
    yVal := y.GetElement(2);
    xVal := x.GetElement(2);
    yRelease, yFreed := y.Unref(true, {});
    xRelease, xFreed := x.Unref(true, {});
  }

  /** cow_const_effect2 with `y` built over `data2`: `add` on an unshared
    * COW vector does not copy, sums element-wise, and leaves `x` alone;
    * at scope exit each vector frees its own buffer, once. */
  method ConstEffect2() returns (keptBuffer: bool, yCount: int, sumOk: bool, xKept: bool)
    ensures keptBuffer && yCount == 1 && sumOk && xKept
  {
    var data, x, data2, y := Separate();
    var both := {x, y};
    var x2, y2 := x.GetElement(2), y.GetElement(2);
    y.Add(x, IntPlus, both);
    keptBuffer := y.ConstVector() == data2;
    yCount := y.ReferenceCount();
    var val := y.GetElement(2);
    sumOk := val == y2 + x2;
    xKept := x.GetElement(2) == x2;
    ghost var xFreed, yFreed := ReleaseBoth(data, x, data2, y);
  }

  /** A clone is independent of its source: writing the source (even with COW
    * off, where writes go in place) leaves the clone's elements alone. */
  method CloneIsIndependent() returns (sourceAfter: int, cloneAfter: int)
    ensures sourceAfter == 7 && cloneAfter == 1
  {
    var data := new int[10];
    var x := new SGVector(data, 10, false, {});
    assert {} + {x} == {x};
    x.SetConst(1, {x});
    var r := x.Clone({x});
    var both := {x, r};
    assert {x} + {r} == both;
    x.SetConst(7, both);
    sourceAfter := x.GetElement(0);
    cloneAfter := r.GetElement(0);
  }
}
