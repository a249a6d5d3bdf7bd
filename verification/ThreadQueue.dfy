/** The queue every thread shares: each operation holds the lock, so it is atomic. */
module ThreadQueue {
  import opened Wrappers

  class ThreadQueue<T> {
    var contents: seq<T>

    constructor ()
      ensures contents == []
    {
      contents := [];
    }

    method Push(item: T)
      modifies this
      ensures contents == old(contents) + [item]
    {
      contents := contents + [item];
    }

    method Pop() returns (r: Option<T>)
      modifies this
      ensures old(contents) == [] ==> r.None? && contents == []
      ensures old(contents) != [] ==> r.Some? && [r.value] + contents == old(contents)
    {
      if contents == [] { return None; }
      r, contents := Some(contents[0]), contents[1..];
    }

    method Front() returns (r: Option<T>)
      ensures contents == [] ==> r.None?
      ensures contents != [] ==> r == Some(contents[0])
    {
      r := if contents == [] then None else Some(contents[0]);
    }

    method Size() returns (n: nat)
      ensures n == |contents|
    {
      n := |contents|;
    }
  }
}
