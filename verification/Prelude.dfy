/** Small datatypes and the HTTP vocabulary shared by the other modules. */
module Prelude {

  datatype Option<+T> = None | Some(value: T)

  newtype byte = x: int | 0 <= x < 256

  type Bytes = seq<byte>

  /** Response headers.  Names are in the canonical form in which Header.Set and Header.Add store
      them, so two names denote the same header exactly when they are equal. */
  type Header = map<string, seq<string>>

  /** The values a header map holds under a name. */
  function Values(h: Header, name: string): seq<string> {
    if name in h then h[name] else []
  }

  /** Header.Add for every name and value of `src`: values already in `dst` stay in front. */
  function AddAll(dst: Header, src: Header): (h: Header)
    ensures h.Keys == dst.Keys + src.Keys
    ensures forall name :: name in h ==> h[name] == Values(dst, name) + Values(src, name)
  {
    map name | name in dst.Keys + src.Keys :: Values(dst, name) + Values(src, name)
  }

  lemma {:induction false} SubsetSize<T>(a: set<T>, b: set<T>)
    requires a <= b
    ensures |a| <= |b|
    ensures a != b ==> |a| < |b|
    decreases |a|
  {
    if a != {} {
      var x :| x in a;
      SubsetSize(a - {x}, b - {x});
      assert a == a - {x} + {x} && b == b - {x} + {x};
    } else if b != {} {
      var x :| x in b;
    }
  }
}
