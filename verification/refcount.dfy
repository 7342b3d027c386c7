/** The shared counter that every handle aliasing one allocation points to.
  * The source's counter is atomic; here the world is single-threaded, so it
  * is a plain integer field. */
module RefCounting {

  class RefCount {
    var count: int

    /** `new RefCount(c)` */
    constructor (c: int)
      ensures count == c
    {
      count := c;
    }

    /** Increments the count and returns the new value. */
    method Ref() returns (c: int)
      modifies this
      ensures count == old(count) + 1
      ensures c == count
    {
      count := count + 1;
      c := count;
    }

    /** Decrements the count and returns the new value. */
    method Unref() returns (c: int)
      modifies this
      ensures count == old(count) - 1
      ensures c == count
    {
      count := count - 1;
      c := count;
    }
  }
}
