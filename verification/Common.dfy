/** What the models of the drivers share. */
module Common {

  datatype Option<+T> = None | Some(value: T)

  function Front<T>(s: seq<T>): seq<T>
    requires s != []
  {
    s[..|s| - 1]
  }

  function Last<T>(s: seq<T>): T
    requires s != []
  {
    s[|s| - 1]
  }

  /** Piece number k of a schedule that ends. */
  function Piece<T>(env: seq<seq<T>>, k: nat): seq<T> { if k < |env| then env[k] else [] }

  /** `kmalloc`: some address that is not in use, one that was freed included. */
  method FreshAddress(used: set<nat>, reserved: nat) returns (a: nat)
    ensures a !in used && a >= reserved
  {
    a := reserved;
    ghost var left := used;
    while a in used
      invariant a >= reserved && forall b :: b in used && b >= a ==> b in left
      decreases |left|
    {
      left := left - {a};
      a := a + 1;
    }
  }
}
