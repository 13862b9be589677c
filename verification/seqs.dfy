/**
 Filtering of link lists.

 Every erase the pins perform on their link lists (dropping one link, dropping
 the expired weak entries, dropping all links that lead to a pin) is an instance
 of one operation: keep the entries that are not in some set, in their order.
 */
module Seqs {

  /** `s` with every entry that belongs to `gone` erased; the others keep their order. */
  function Without<T(==)>(s: seq<T>, gone: set<T>): (r: seq<T>)
    ensures |r| <= |s|
    ensures forall i :: 0 <= i < |r| ==> r[i] in s && r[i] !in gone
    ensures forall i :: 0 <= i < |s| && s[i] !in gone ==> s[i] in r
  {
    if s == [] then []
    else if s[0] in gone then Without(s[1..], gone)
    else [s[0]] + Without(s[1..], gone)
  }

  /** Filtering distributes over concatenation, so the survivors keep their relative order. */
  lemma {:induction false} WithoutAppend<T>(a: seq<T>, b: seq<T>, gone: set<T>)
    ensures Without(a + b, gone) == Without(a, gone) + Without(b, gone)
  {
    if a == [] {
      assert a + b == b;
    } else {
      assert (a + b)[1..] == a[1..] + b;
      WithoutAppend(a[1..], b, gone);
    }
  }

  /** Filtering twice is filtering once by both sets; in particular a second erase of the same entries changes nothing. */
  lemma {:induction false} WithoutWithout<T>(s: seq<T>, a: set<T>, b: set<T>)
    ensures Without(Without(s, a), b) == Without(s, a + b)
  {
    if s != [] {
      WithoutWithout(s[1..], a, b);
    }
  }

  /** Erasing one entry a second time changes nothing. */
  lemma WithoutOnceMore<T>(s: seq<T>, x: T)
    ensures Without(Without(s, {x}), {x}) == Without(s, {x})
  {
    WithoutWithout(s, {x}, {x});
    assert {x} + {x} == {x};
  }

  /** A list none of whose entries is to be erased is left as it is. */
  lemma {:induction false} WithoutUntouched<T>(s: seq<T>, gone: set<T>)
    requires forall i :: 0 <= i < |s| ==> s[i] !in gone
    ensures Without(s, gone) == s
  {
    if s != [] {
      WithoutUntouched(s[1..], gone);
    }
  }

  /**
   One step of an erase loop over `cur`, which so far has filtered `s[..k]`
   into `cur[..i]` and left `s[k..]` untouched: erasing or keeping entry `i`
   extends the filtered prefix by one entry of `s`.
   */
  lemma EraseStep<T>(cur: seq<T>, i: nat, s: seq<T>, k: nat, gone: set<T>)
    requires i < |cur| && k <= |s|
    requires cur[..i] == Without(s[..k], gone) && cur[i..] == s[k..]
    ensures k < |s| && cur[i] == s[k] && s[..k + 1] == s[..k] + [s[k]]
    ensures cur[i] in gone ==>
      (cur[..i] + cur[i + 1..])[..i] == Without(s[..k + 1], gone) && (cur[..i] + cur[i + 1..])[i..] == s[k + 1..]
    ensures cur[i] !in gone ==>
      cur[..i + 1] == Without(s[..k + 1], gone) && cur[i + 1..] == s[k + 1..]
  {
    assert cur[i..][0] == s[k..][0];
    assert s[..k + 1] == s[..k] + [s[k]];
    WithoutAppend(s[..k], [s[k]], gone);
    assert [s[k]][1..] == [];
    assert cur[i + 1..] == cur[i..][1..];
    if cur[i] !in gone {
      assert cur[..i + 1] == cur[..i] + [cur[i]];
    }
  }
}
