/** Datatypes and small sequence facts shared by the other modules. */
module Prelude {

  datatype Option<+T> = None | Some(value: T)

  /** A byte of a file, a frame or a message. */
  newtype byte = x: int | 0 <= x < 256

  ghost predicate IsPrefix<T>(s: seq<T>, t: seq<T>) {
    |s| <= |t| && s == t[..|s|]
  }

  /** All the elements of `pieces`, one piece after the other. */
  function Flatten<T>(pieces: seq<seq<T>>): (all: seq<T>) {
    if |pieces| == 0 then [] else pieces[0] + Flatten(pieces[1..])
  }

  lemma {:induction false} FlattenAppend<T>(xs: seq<seq<T>>, ys: seq<seq<T>>)
    ensures Flatten(xs + ys) == Flatten(xs) + Flatten(ys)
  {
    if |xs| == 0 {
      assert xs + ys == ys;
    } else {
      FlattenAppend(xs[1..], ys);
      assert (xs + ys)[1..] == xs[1..] + ys;
      var (x, rest, tail) := (xs[0], Flatten(xs[1..]), Flatten(ys));
      assert x + (rest + tail) == (x + rest) + tail;
    }
  }

  lemma FlattenSnoc<T>(xs: seq<seq<T>>, y: seq<T>)
    ensures Flatten(xs + [y]) == Flatten(xs) + y
  {
    FlattenAppend(xs, [y]);
    assert Flatten([y]) == y + Flatten<T>([]);
  }

  /** Taking the same element out of two permuted lists leaves permuted lists. */
  lemma RemoveFromBoth<T>(xs: seq<T>, x: T, before: seq<T>, after: seq<T>)
    requires multiset(xs + [x]) == multiset(before + [x] + after)
    ensures multiset(xs) == multiset(before + after)
  {
    assert multiset(xs + [x]) == multiset(xs) + multiset{x};
    assert multiset(before + [x] + after) == multiset(before + after) + multiset{x};
    assert multiset(xs) == (multiset(xs) + multiset{x}) - multiset{x};
    assert multiset(before + after) == (multiset(before + after) + multiset{x}) - multiset{x};
  }

  /** Two positions with the same element count twice. */
  lemma CountedTwice<T>(s: seq<T>, i: nat, j: nat)
    requires i < j < |s| && s[i] == s[j]
    ensures multiset(s)[s[i]] >= 2
  {
    assert s == s[..j] + ([s[j]] + s[j + 1..]);
    assert s[..j][i] == s[i];
    assert multiset(s) == multiset(s[..j]) + multiset([s[j]] + s[j + 1..]);
    assert ([s[j]] + s[j + 1..])[0] == s[i];
  }

  /** An element at one position only counts once. */
  lemma CountedOnce<T>(s: seq<T>, i: nat)
    requires i < |s| && forall j | 0 <= j < |s| && j != i :: s[j] != s[i]
    ensures multiset(s)[s[i]] == 1
  {
    assert s == s[..i] + [s[i]] + s[i + 1..];
    assert s[i] !in s[..i] && s[i] !in s[i + 1..];
  }
}
