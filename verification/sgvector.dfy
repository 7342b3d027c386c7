/** The copy-on-write, reference-counted vector.
  *
  * `SGVector<T>` merges the shared-ownership base `SGReferencedData` (the
  * nullable `refcount` handle and the protocol `Ref`, `Unref`, `Detach`,
  * `CopyRefcount`, `ReferenceCount`) with the vector that derives from it
  * (buffer, length, COW flag, and the four payload hooks `CopyData`,
  * `CloneData`, `InitData`, `FreeData` that the base calls back into).
  *
  * The set of C++ objects currently alive is a ghost parameter `live` of the
  * operations that create, destroy or re-point handles. `Consistent(live)`
  * is the ownership invariant of the whole world: each counter counts exactly
  * the live handles that point to it, handles that share a counter agree on
  * the buffer, and one buffer belongs to one counter. */
module CowVector {
  import opened RefCounting

  class SGVector<T> {
    // SGReferencedData::m_refcount
    var refcount: RefCount?
    // SGVector::m_vector, m_vlen, m_is_cow
    var vector: array?<T>
    var vlen: nat
    var isCow: bool

    /** The length never runs past the buffer it describes. */
    ghost predicate Valid()
      reads this
    {
      vector != null ==> vlen <= vector.Length
    }

    /** The elements this handle sees (none when the buffer is null). */
    ghost function Contents(): seq<T>
      reads this, vector
      requires Valid()
    {
      if vector == null then [] else vector[..vlen]
    }

    //-------------------------------------------------------------------------
    // SGVector: construction, assignment, destruction

    /** `SGVector(T* vector, index_t vlen, bool is_cow=false)`: the new handle
      * owns a buffer that no live handle holds, through a fresh counter at 1. */
    constructor (vector: array?<T>, vlen: nat, isCow: bool, ghost live: set<SGVector<T>>)
      requires vector != null ==> vlen <= vector.Length
      requires Consistent(live)
      requires vector != null ==> forall w | w in live :: w.vector != vector
      ensures this.vector == vector && this.vlen == vlen && this.isCow == isCow
      ensures refcount != null && fresh(refcount) && refcount.count == 1
      ensures Consistent(live + {this})
    {
      this.vector := vector;
      this.vlen := vlen;
      this.isCow := isCow;
      new;
      InitReferencedData(true);
      assert Holders(live, refcount) == {};
      Join(live, this);
    }

    /** Copy constructor: share `orig`'s buffer and counter, one holder more. */
    constructor Copy(orig: SGVector<T>, ghost live: set<SGVector<T>>)
      requires orig in live && Consistent(live)
      modifies orig.refcount
      ensures vector == orig.vector && vlen == orig.vlen && isCow == orig.isCow
      ensures refcount == orig.refcount && refcount != null
      ensures refcount.count == old(orig.refcount.count) + 1
      ensures Consistent(live + {this})
    {
      new;
      Share(orig, live);
    }

    /** Destructor `~SGVector()`: `unref()`. The last holder releases the
      * buffer, which then no other live handle can reach; a holder that is not
      * the last releases nothing, and some other live handle keeps the buffer. */
    method Destroy(ghost live: set<SGVector<T>>) returns (ghost released: array?<T>)
      requires this in live && Consistent(live)
      modifies this, refcount
      ensures Consistent(live - {this})
      ensures refcount == null && vector == null && vlen == 0
      ensures old(refcount).count == old(refcount.count) - 1
      ensures old(refcount.count) == 1 ==>
                released == old(vector) &&
                forall w | w in live && w != this ::
                  w.refcount != old(refcount) && (old(vector) != null ==> w.vector != old(vector))
      ensures old(refcount.count) > 1 ==>
                released == null &&
                exists w :: w in live && w != this && w.refcount == old(refcount) && w.vector == old(vector)
    {
      ghost var c := refcount;
      SoleHolder(live, this);
      if c.count > 1 {
        OtherHolder(live, this);
      }
      var _, r := Unref(true, live);
      released := r;
    }

    /** `operator=`: self-assignment changes nothing; otherwise release the
      * current buffer (the last holder frees it), then alias `other`'s buffer
      * and counter, one holder more. */
    method Assign(other: SGVector<T>, ghost live: set<SGVector<T>>) returns (ghost released: array?<T>)
      requires this in live && other in live && Consistent(live)
      modifies this, refcount, other.refcount
      ensures Consistent(live)
      ensures vector == old(other.vector) && vlen == old(other.vlen) && isCow == old(other.isCow)
      ensures refcount == old(other.refcount) && refcount != null
      ensures old(refcount) == old(other.refcount) ==> refcount.count == old(refcount.count)
      ensures old(refcount) != old(other.refcount) ==>
                refcount.count == old(other.refcount.count) + 1 &&
                old(refcount).count == old(refcount.count) - 1
      ensures old(refcount) != old(other.refcount) && old(refcount.count) == 1 ==>
                released == old(vector) &&
                forall w | w in live ::
                  w.refcount != old(refcount) && (old(vector) != null ==> w.vector != old(vector))
      ensures old(refcount) == old(other.refcount) || old(refcount.count) > 1 ==> released == null
      ensures old(refcount) != old(other.refcount) && old(refcount.count) > 1 ==>
                exists w :: w in live && w != this && w.refcount == old(refcount) && w.vector == old(vector)
    {
      released := null;
      if other == this {
        return;
      }
      SoleHolder(live, this);
      ghost var keeper := this;
      if refcount.count > 1 {
        OtherHolder(live, this);
        keeper :| keeper in live && keeper != this && keeper.refcount == refcount && keeper.vector == vector;
      }
      var _, r := Unref(true, live);
      released := r;
      ghost var rest := live - {this};
      Share(other, rest);
      assert rest + {this} == live;
      if old(refcount) != old(other.refcount) && old(refcount.count) > 1 {
        assert keeper in live && keeper != this && keeper.refcount == old(refcount) && keeper.vector == old(vector);
      }
    }

    /** `copy_data`, `copy_refcount` and `ref`, the steps the copy constructor
      * and `operator=` share: a handle outside the world aliases `orig`'s
      * buffer and counter and joins the world as one holder more. */
    method Share(orig: SGVector<T>, ghost rest: set<SGVector<T>>)
      requires orig in rest && this !in rest && Consistent(rest)
      modifies this, orig.refcount
      ensures vector == old(orig.vector) && vlen == old(orig.vlen) && isCow == old(orig.isCow)
      ensures refcount == old(orig.refcount) && refcount != null
      ensures refcount.count == old(orig.refcount.count) + 1
      ensures Consistent(rest + {this})
    {
      CopyData(orig);
      CopyRefcount(orig);
      ghost var d := refcount;
      ghost var nd := d.count;
      assert nd == |Holders(rest, d)|;
      var _ := Ref();
      forall w | w in rest
        ensures w.refcount.count == |Holders(rest, w.refcount)| + (if w.refcount == d then 1 else 0)
      {
      }
      Join(rest, this);
    }

    /** `detach`: the copy-on-write trigger. A shared handle leaves its old
      * counter (keeping its buffer pointer), takes a fresh counter at 1 and a
      * private copy of its elements; an unshared handle is left as it is.
      * Either way it ends as the only holder of its counter and buffer. */
    method Detach(ghost live: set<SGVector<T>>)
      requires this in live && Consistent(live)
      modifies this, refcount
      ensures Consistent(live)
      ensures Valid() && vlen == old(vlen) && isCow == old(isCow) && Contents() == old(Contents())
      ensures refcount != null && refcount.count == 1
      ensures old(refcount.count) <= 1 ==> refcount == old(refcount) && vector == old(vector)
      ensures old(refcount.count) > 1 ==>
                fresh(refcount) && old(refcount).count == old(refcount.count) - 1 &&
                (old(vector) == null ==> vector == null) && (old(vector) != null ==> fresh(vector))
      ensures vector != null ==> forall w | w in live && w != this :: w.vector != vector
    {
      SoleHolder(live, this);
      if refcount.count > 1 {
        var _, _ := Unref(false, live);
        StartPrivateCopy(live);
      }
    }

    /** The second half of `detach`: a handle that has just dropped its stake
      * (keeping its buffer pointer) takes a fresh counter at 1 and a private
      * copy of its elements, and rejoins the world. */
    method StartPrivateCopy(ghost live: set<SGVector<T>>)
      requires this in live && refcount == null && Valid() && Consistent(live - {this})
      modifies this
      ensures Consistent(live)
      ensures Valid() && vlen == old(vlen) && isCow == old(isCow) && Contents() == old(Contents())
      ensures refcount != null && fresh(refcount) && refcount.count == 1
      ensures old(vector) == null ==> vector == null
      ensures old(vector) != null ==> fresh(vector)
    {
      ghost var rest := live - {this};
      refcount := new RefCount(0);
      var _ := Ref();
      CloneData();
      assert Holders(rest, refcount) == {};
      Join(rest, this);
      assert rest + {this} == live;
    }

    //-------------------------------------------------------------------------
    // SGVector: access paths

    /** The const `get_vector()`: the buffer as it is; being a function it
      * can change neither the counter nor the pointer. */
    function ConstVector(): (p: array?<T>)
      reads this
      ensures p == vector
    {
      vector
    }

    /** `get_element` (and the const `operator[]`, which reads the same way):
      * the element at `index` of what this handle sees, with no detach. */
    function GetElement(index: nat): (r: T)
      reads this, vector
      requires Valid() && vector != null && index < vlen
      ensures r == Contents()[index]
    {
      ConstVector()[index]
    }

    /** `ref_count()`: -1 on a null handle, otherwise the count. Being a
      * const reader it changes nothing. In a consistent world that count is
      * the number of live handles sharing the buffer (see `Consistent` and
      * `SoleHolder`). */
    function ReferenceCount(): (c: int)
      reads this, refcount
      ensures refcount == null ==> c == -1
      ensures refcount != null ==> c == refcount.count
    {
      if refcount == null then -1 else refcount.count
    }

    /** The non-const `get_vector()`: with COW on, detach first, so the
      * buffer handed out for writing is held by this handle alone; with COW
      * off, the shared buffer is handed out as it is. */
    method GetVector(ghost live: set<SGVector<T>>) returns (p: array?<T>)
      requires this in live && Consistent(live)
      modifies this, refcount
      ensures Consistent(live) && p == vector
      ensures Valid() && vlen == old(vlen) && isCow == old(isCow) && Contents() == old(Contents())
      ensures isCow ==> refcount.count == 1 &&
                        (p != null ==> forall w | w in live && w != this :: w.vector != p)
      ensures !isCow || old(refcount.count) == 1 ==>
                refcount == old(refcount) && vector == old(vector) && refcount.count == old(refcount.count)
      ensures isCow && old(refcount.count) > 1 ==>
                fresh(refcount) && old(refcount).count == old(refcount.count) - 1 &&
                (old(vector) != null ==> fresh(vector))
      ensures refcount != old(refcount) ==> fresh(refcount)
      ensures vector != old(vector) ==> fresh(vector)
    {
      if isCow {
        Detach(live);
      }
      p := vector;
    }

    /** The non-const `operator[]`: a writable reference to element `index`,
      * given as the buffer it lies in (index `index` of `buf`). */
    method ElementRef(index: nat, ghost live: set<SGVector<T>>) returns (buf: array<T>)
      requires this in live && Consistent(live) && vector != null && index < vlen
      modifies this, refcount
      ensures Consistent(live) && buf == vector && index < vlen <= buf.Length
      ensures buf[index] == old(Contents())[index]
      ensures vlen == old(vlen) && isCow == old(isCow) && Contents() == old(Contents())
      ensures isCow ==> refcount.count == 1 && forall w | w in live && w != this :: w.vector != buf
      ensures !isCow || old(refcount.count) == 1 ==>
                refcount == old(refcount) && buf == old(vector) && refcount.count == old(refcount.count)
      ensures isCow && old(refcount.count) > 1 ==>
                fresh(refcount) && old(refcount).count == old(refcount.count) - 1 && fresh(buf)
      ensures refcount != old(refcount) ==> fresh(refcount)
    {
      var p := GetVector(live);
      buf := p;
    }

    //-------------------------------------------------------------------------
    // SGVector: vector operations

    /** `set_const`: every element this handle sees becomes `constElem`.
      * The buffer comes from the non-const accessor, so a shared COW vector
      * writes into its own copy and every other handle keeps its elements;
      * a vector without COW writes into the buffer all its sharers see. */
    method SetConst(constElem: T, ghost live: set<SGVector<T>>)
      requires this in live && Consistent(live)
      requires vlen > 0 ==> vector != null
      modifies this, refcount, vector
      ensures Consistent(live) && Valid()
      ensures vlen == old(vlen) && isCow == old(isCow)
      ensures Contents() == seq(vlen, _ => constElem)
      ensures forall w | w in live && w.vector != vector :: w.Contents() == old(w.Contents())
      ensures isCow ==> refcount.count == 1 &&
                        (vector != null ==> forall w | w in live && w != this :: w.vector != vector)
      ensures !isCow || old(refcount.count) == 1 ==>
                refcount == old(refcount) && vector == old(vector) && refcount.count == old(refcount.count)
      ensures isCow && old(refcount.count) > 1 ==>
                fresh(refcount) && old(refcount).count == old(refcount.count) - 1 &&
                (old(vector) != null ==> fresh(vector))
      ensures refcount != old(refcount) ==> fresh(refcount)
      ensures vector != old(vector) ==> fresh(vector)
    {
      var p := GetVector(live);
      if p != null {
        FillPrefix(p, vlen, constElem, live);
      }
    }

    /** `add`: element-wise `this[i] += x[i]` for every `i < vlen`, with `+=`
      * on `T` given as `plus`. `x` is read through the const accessor before
      * `this` is detached, so `x`'s elements are the ones it had on entry,
      * even when `x` is `this` or shares its buffer. */
    method Add(x: SGVector<T>, plus: (T, T) -> T, ghost live: set<SGVector<T>>)
      requires this in live && x in live && Consistent(live)
      requires vlen <= x.vlen
      requires vlen > 0 ==> vector != null && x.vector != null
      modifies this, refcount, vector
      ensures Consistent(live) && Valid()
      ensures vlen == old(vlen) && isCow == old(isCow) && |Contents()| == vlen
      ensures forall i | 0 <= i < vlen :: Contents()[i] == plus(old(Contents())[i], old(x.Contents())[i])
      ensures x != this ==> x.refcount == old(x.refcount) && x.vector == old(x.vector) && x.vlen == old(x.vlen)
      ensures forall w | w in live && w.vector != vector :: w.Contents() == old(w.Contents())
      ensures isCow ==> refcount.count == 1 &&
                        (vector != null ==> forall w | w in live && w != this :: w.vector != vector)
      ensures !isCow || old(refcount.count) == 1 ==>
                refcount == old(refcount) && vector == old(vector) && refcount.count == old(refcount.count)
      ensures isCow && old(refcount.count) > 1 ==>
                fresh(refcount) && old(refcount).count == old(refcount.count) - 1 &&
                (old(vector) != null ==> fresh(vector))
      ensures refcount != old(refcount) ==> fresh(refcount)
      ensures vector != old(vector) ==> fresh(vector)
    {
      ghost var a := Contents();
      ghost var b := x.Contents();
      var xv := x.ConstVector();
      var p := GetVector(live);
      if p != null && xv != null {
        AddPrefix(p, xv, vlen, plus, live);
      }
    }

    /** `clone()`: an independent vector with the same elements in a fresh
      * buffer with a fresh counter at 1; its COW flag is the constructor's
      * default, off. */
    method Clone(ghost live: set<SGVector<T>>) returns (r: SGVector<T>)
      requires Valid() && Consistent(live)
      ensures fresh(r) && r.Valid() && r.Contents() == Contents()
      ensures r.vlen == vlen && !r.isCow
      ensures r.refcount != null && fresh(r.refcount) && r.refcount.count == 1
      ensures vector == null ==> r.vector == null
      ensures vector != null ==> r.vector != null && fresh(r.vector)
      ensures Consistent(live + {r})
    {
      var v := CloneVector(vector, vlen);
      r := new SGVector(v, vlen, false, live);
    }

    /** `operator+`: a clone of this vector receives `add(x)`. The sum lives
      * in a fresh buffer; neither operand, nor any count, changes. (`x` is the
      * by-value parameter: its copy construction and destruction are the
      * caller's.) */
    method Plus(x: SGVector<T>, plus: (T, T) -> T, ghost live: set<SGVector<T>>) returns (result: SGVector<T>)
      requires this in live && x in live && Consistent(live)
      requires vlen <= x.vlen
      requires vlen > 0 ==> vector != null && x.vector != null
      ensures fresh(result) && result.Valid() && !result.isCow && result.vlen == vlen
      ensures |result.Contents()| == vlen == |Contents()| <= |x.Contents()|
      ensures forall i | 0 <= i < vlen :: result.Contents()[i] == plus(Contents()[i], x.Contents()[i])
      ensures result.refcount != null && fresh(result.refcount) && result.refcount.count == 1
      ensures Consistent(live + {result})
    {
      result := Clone(live);
      result.Add(x, plus, live + {result});
    }

    //-------------------------------------------------------------------------
    // SGReferencedData: construction and the counting protocol

    /** Body of the base constructor `SGReferencedData(bool ref_counting)`:
      * a fresh counter at 1 when counting, otherwise a null handle. */
    method InitReferencedData(refCounting: bool)
      modifies this
      ensures refCounting ==> refcount != null && fresh(refcount) && refcount.count == 1
      ensures !refCounting ==> refcount == null
      ensures vector == old(vector) && vlen == old(vlen) && isCow == old(isCow)
    {
      refcount := null;
      if refCounting {
        refcount := new RefCount(0);
      }
      var _ := Ref();
    }

    /** `copy_refcount`: adopt `orig`'s counter without counting. */
    method CopyRefcount(orig: SGVector<T>)
      modifies this
      ensures refcount == old(orig.refcount)
      ensures vector == old(vector) && vlen == old(vlen) && isCow == old(isCow)
    {
      refcount := orig.refcount;
    }

    /** `ref`: one more holder; -1 on a null handle. */
    method Ref() returns (c: int)
      modifies refcount
      ensures refcount == null ==> c == -1
      ensures refcount != null ==> refcount.count == old(refcount.count) + 1 && c == refcount.count
    {
      if refcount == null {
        return -1;
      }
      c := refcount.Ref();
    }

    /** `unref(update_data)`: give up this handle's stake. The last holder
      * frees the payload (reported as `released`) and deletes the counter;
      * a holder that is not the last only resets its own view. A live handle
      * of a consistent world leaves it consistent without it; when it was the
      * last holder, no other live handle shared its counter or buffer, and
      * otherwise another live handle shared both (and, untouched by `unref`,
      * still does). */
    method Unref(updateData: bool, ghost live: set<SGVector<T>>) returns (c: int, ghost released: array?<T>)
      requires this in live ==> Consistent(live)
      modifies this, refcount
      ensures refcount == null && isCow == old(isCow)
      ensures old(refcount) == null ==> c == -1 && released == null
      ensures old(refcount) != null ==> old(refcount).count == old(refcount.count) - 1
      ensures old(refcount) != null && old(refcount.count) <= 1 ==>
                c == 0 && released == (if updateData then old(vector) else null)
      ensures old(refcount) != null && old(refcount.count) > 1 ==>
                c == old(refcount.count) - 1 && c > 0 && released == null
      ensures updateData ==> vector == null && vlen == 0
      ensures !updateData ==> vector == old(vector) && vlen == old(vlen)
      ensures this in live ==> Consistent(live - {this})
      ensures this in live && old(refcount) != null && old(refcount.count) <= 1 ==>
                old(forall w | w in live && w != this ::
                      w.refcount != refcount && (vector != null ==> w.vector != vector))
      ensures this in live && old(refcount) != null && old(refcount.count) > 1 ==>
                old(exists w :: w in live && w != this && w.refcount == refcount && w.vector == vector)
    {
      released := null;
      if refcount == null {
        if updateData {
          InitData();
        }
        refcount := null;
        c := -1;
        return;
      }
      ghost var rc := refcount;
      ghost var holders := Holders(live, rc);
      if this in live {
        SoleHolder(live, this);
        if rc.count > 1 {
          OtherHolder(live, this);
        }
      }
      c := refcount.Unref();
      if c <= 0 {
        if updateData {
          released := FreeData();
        }
        refcount := null;
        c := 0;
      } else {
        if updateData {
          InitData();
        }
        refcount := null;
      }
      if this in live {
        forall w | w in live && w != this
          ensures w.refcount.count == |Holders(live, w.refcount)|
        {
          if w.refcount == rc {
            assert Holders(live, rc) == holders - {this};
          } else {
            assert Holders(live, w.refcount) == old(Holders(live, w.refcount));
          }
        }
        Leave(live, this);
      }
    }

    //-------------------------------------------------------------------------
    // SGVector: the payload hooks

    /** `copy_data`: alias `orig`'s buffer, length and COW flag. */
    method CopyData(orig: SGVector<T>)
      modifies this
      ensures vector == old(orig.vector) && vlen == old(orig.vlen) && isCow == old(orig.isCow)
      ensures refcount == old(refcount)
    {
      vector, vlen, isCow := orig.vector, orig.vlen, orig.isCow;
    }

    /** `clone_data`: point at a private deep copy of the current buffer. */
    method CloneData()
      requires Valid()
      modifies this
      ensures Valid() && Contents() == old(Contents())
      ensures vlen == old(vlen) && isCow == old(isCow) && refcount == old(refcount)
      ensures old(vector) == null ==> vector == null
      ensures old(vector) != null ==> vector != null && fresh(vector)
    {
      vector := CloneVector(vector, vlen);
    }

    /** `init_data`: forget the buffer without releasing it. */
    method InitData()
      modifies this
      ensures vector == null && vlen == 0
      ensures refcount == old(refcount) && isCow == old(isCow)
    {
      vector := null;
      vlen := 0;
    }

    /** `free_data`: release the buffer (reported as `released`) and clear. */
    method FreeData() returns (ghost released: array?<T>)
      modifies this
      ensures vector == null && vlen == 0 && released == old(vector)
      ensures refcount == old(refcount) && isCow == old(isCow)
    {
      released := vector;
      if vector != null {
        vector := null;
      }
      vlen := 0;
    }

    /** `clone_vector`: a fresh buffer holding the first `vlen` elements of
      * `vec`, or null for a null `vec`. Like the source, it copies this
      * handle's length `vlen` and ignores `len`. */
    method CloneVector(vec: array?<T>, len: int) returns (r: array?<T>)
      requires vec != null ==> vlen <= vec.Length
      ensures vec == null ==> r == null
      ensures vec != null ==> r != null && fresh(r) && r[..] == vec[..vlen]
    {
      if vec == null {
        return null;
      }
      var s := vec[..vlen];
      r := new T[vlen](i requires 0 <= i < |s| => s[i]);
    }
  }

  /** The loop of `set_const`: the first `n` elements of `p` become `c`.
    * `Consistent` reads no buffer, so the writes cannot affect it; `live` is
    * here only to carry that fact across the loop in this small method,
    * which keeps the proof of `SetConst` cheap. */
  method FillPrefix<T>(p: array<T>, n: nat, c: T, ghost live: set<SGVector<T>>)
    requires n <= p.Length && Consistent(live)
    modifies p
    ensures p[..n] == seq(n, _ => c) && Consistent(live)
    ensures p[n..] == old(p[n..])
  {
    var i := 0;
    while i < n
      invariant 0 <= i <= n
      invariant forall k | 0 <= k < i :: p[k] == c
      invariant forall k | n <= k < p.Length :: p[k] == old(p[k])
    {
      p[i] := c;
      i := i + 1;
    }
  }

  /** The loop of `add`: `p[k] += q[k]` for the first `n` elements, `q` read
    * as it was on entry even when it is `p` itself. As for `FillPrefix`,
    * `live` is here only to carry `Consistent` across the writes cheaply. */
  method AddPrefix<T>(p: array<T>, q: array<T>, n: nat, plus: (T, T) -> T, ghost live: set<SGVector<T>>)
    requires n <= p.Length && n <= q.Length && Consistent(live)
    modifies p
    ensures forall k | 0 <= k < n :: p[k] == plus(old(p[k]), old(q[k]))
    ensures p[n..] == old(p[n..])
    ensures Consistent(live)
  {
    ghost var a := p[..];
    ghost var b := q[..];
    var i := 0;
    while i < n
      invariant 0 <= i <= n
      invariant forall k | 0 <= k < i :: p[k] == plus(a[k], b[k])
      invariant forall k | i <= k < n :: p[k] == a[k] && q[k] == b[k]
      invariant forall k | n <= k < p.Length :: p[k] == a[k]
    {
      p[i] := plus(p[i], q[i]);
      i := i + 1;
    }
  }

  /** The live handles that point at counter `c`. */
  ghost function Holders<T>(live: set<SGVector<T>>, c: RefCount?): set<SGVector<T>>
    reads live
  {
    set w | w in live && w.refcount == c
  }

  ghost function Counters<T>(live: set<SGVector<T>>): set<RefCount?>
    reads live
  {
    set v | v in live :: v.refcount
  }

  /** The ownership invariant over all live handles. */
  ghost predicate Consistent<T>(live: set<SGVector<T>>)
    reads live, Counters(live)
  {
    (forall v | v in live ::
       v.Valid() && v.refcount != null && v.refcount.count == |Holders(live, v.refcount)|) &&
    (forall v, w | v in live && w in live :: Agree(v, w))
  }

  /** Pairwise agreement: sharers of a counter see the same buffer, length and
    * flag, and one non-null buffer belongs to one counter. */
  ghost predicate Agree<T>(v: SGVector<T>, w: SGVector<T>)
    reads v, w
  {
    (v.refcount == w.refcount ==> v.vector == w.vector && v.vlen == w.vlen && v.isCow == w.isCow) &&
    (v.vector != null && v.vector == w.vector ==> v.refcount == w.refcount)
  }

  /** A handle `v` joins the world; its counter already counts it. */
  lemma Join<T>(live: set<SGVector<T>>, v: SGVector<T>)
    requires v !in live && v.Valid() && v.refcount != null
    requires forall w | w in live ::
               w.Valid() && w.refcount != null &&
               w.refcount.count == |Holders(live, w.refcount)| + (if w.refcount == v.refcount then 1 else 0)
    requires v.refcount.count == |Holders(live, v.refcount)| + 1
    requires forall w, u | w in live && u in live :: Agree(w, u)
    requires forall w | w in live :: Agree(v, w) && Agree(w, v)
    ensures Consistent(live + {v})
  {
    var live' := live + {v};
    forall w | w in live'
      ensures w.refcount.count == |Holders(live', w.refcount)|
    {
      if w.refcount == v.refcount {
        assert Holders(live', w.refcount) == Holders(live, w.refcount) + {v};
      } else {
        assert Holders(live', w.refcount) == Holders(live, w.refcount);
      }
    }
    forall w, u | w in live' && u in live' ensures Agree(w, u) {
    }
  }

  /** A handle `v` that dropped its counter leaves the world. */
  lemma Leave<T>(live: set<SGVector<T>>, v: SGVector<T>)
    requires v in live && v.refcount == null
    requires forall w | w in live && w != v ::
               w.Valid() && w.refcount != null && w.refcount.count == |Holders(live, w.refcount)|
    requires forall w, u | w in live && u in live && w != v && u != v :: Agree(w, u)
    ensures Consistent(live - {v})
  {
    var live' := live - {v};
    forall w | w in live'
      ensures w.refcount.count == |Holders(live', w.refcount)|
    {
      assert Holders(live', w.refcount) == Holders(live, w.refcount);
    }
  }

  /** A handle's counter is at least 1, and it is exactly 1 when, and only
    * when, no other live handle shares it; then no other live handle sees
    * its buffer either. */
  lemma SoleHolder<T>(live: set<SGVector<T>>, v: SGVector<T>)
    requires Consistent(live) && v in live
    ensures v.refcount != null && v.refcount.count >= 1
    ensures v.refcount.count == 1 <==> forall w | w in live && w != v :: w.refcount != v.refcount
    ensures v.refcount.count == 1 && v.vector != null ==>
              forall w | w in live && w != v :: w.vector != v.vector
  {
    var h := Holders(live, v.refcount);
    assert v in h;
    if forall w | w in live && w != v :: w.refcount != v.refcount {
      assert h == {v};
    } else {
      var w :| w in live && w != v && w.refcount == v.refcount;
      assert {v, w} <= h;
      assert |h - {v}| >= 1 by { assert w in h - {v}; }
    }
  }

  /** A counter above 1 means another live handle shares counter and buffer. */
  lemma OtherHolder<T>(live: set<SGVector<T>>, v: SGVector<T>)
    requires Consistent(live) && v in live && v.refcount.count > 1
    ensures exists w :: w in live && w != v && w.refcount == v.refcount && w.vector == v.vector
  {
    var h := Holders(live, v.refcount);
    assert h != {v};
    assert v in h;
    var w :| w in h && w != v;
    assert Agree(v, w);
  }

  /** Handles sharing a counter read the same elements. */
  lemma SharersReadAlike<T>(live: set<SGVector<T>>, v: SGVector<T>, w: SGVector<T>)
    requires Consistent(live) && v in live && w in live && v.refcount == w.refcount
    ensures v.Contents() == w.Contents()
  {
    assert Agree(v, w);
  }

  /** Two counters over one buffer break the ownership invariant: each
    * holder would free the buffer as its last owner. */
  lemma TwoOwnersInconsistent<T>(v: SGVector<T>, w: SGVector<T>)
    requires v.vector != null && v.vector == w.vector && v.refcount != w.refcount
    ensures !Consistent({v, w})
  {
    assert !Agree(v, w);
  }
}
