/** Paths as names with a slash before each; slash-free names can be read back from them. */
module Paths {

  predicate SlashFree(names: seq<string>) {
    forall i :: 0 <= i < |names| ==> '/' !in names[i]
  }

  /** The names with a slash before each. */
  function Slashed(names: seq<string>): string {
    if names == [] then "" else "/" + names[0] + Slashed(names[1..])
  }

  lemma {:induction false} SlashedOfSum(a: seq<string>, b: seq<string>)
    ensures Slashed(a + b) == Slashed(a) + Slashed(b)
  {
    if a == [] {
      assert a + b == b;
    } else {
      assert (a + b)[1..] == a[1..] + b;
      SlashedOfSum(a[1..], b);
    }
  }

  /** A name ends where the string does or at the first slash. */
  lemma FirstNameIsUnique(a: string, x: string, b: string, y: string)
    requires '/' !in a && '/' !in b && a + x == b + y
    requires (x == [] || x[0] == '/') && (y == [] || y[0] == '/')
    ensures a == b && x == y
  {
    assert forall k :: 0 <= k < |a| ==> (a + x)[k] == a[k] && a[k] != '/';
    assert forall k :: 0 <= k < |b| ==> (b + y)[k] == b[k] && b[k] != '/';
    assert x != [] ==> (a + x)[|a|] == '/';
    assert y != [] ==> (b + y)[|b|] == '/';
    assert |a| == |b|;
    assert a == (a + x)[..|a|] && b == (b + y)[..|b|];
    assert x == (a + x)[|a|..] && y == (b + y)[|b|..];
  }

  lemma {:induction false} SlashedIsUnique(a: seq<string>, b: seq<string>)
    requires SlashFree(a) && SlashFree(b) && Slashed(a) == Slashed(b)
    ensures a == b
  {
    if a != [] && b != [] {
      assert Slashed(a)[1..] == a[0] + Slashed(a[1..]);
      assert Slashed(b)[1..] == b[0] + Slashed(b[1..]);
      FirstNameIsUnique(a[0], Slashed(a[1..]), b[0], Slashed(b[1..]));
      SlashedIsUnique(a[1..], b[1..]);
      assert a == [a[0]] + a[1..] && b == [b[0]] + b[1..];
    }
  }
}
