/** Vocabulary shared by every component of the model. */
module Common {

  datatype Option<+T> = None | Some(value: T)

  datatype Result<+T, +E> = Ok(value: T) | Err(error: E)

  /** Case folding, on ASCII letters; other characters stand for themselves. */
  function Fold(s: string): string {
    if s == [] then [] else [if 'A' <= s[0] <= 'Z' then s[0] - 'A' + 'a' else s[0]] + Fold(s[1..])
  }

  /** `actor.casefold().startswith("model:")`. */
  predicate IsModel(actor: string) {
    "model:" <= Fold(actor)
  }

  /** Permutations have the same length and the same elements. */
  lemma SameElements<T>(s: seq<T>, t: seq<T>)
    requires multiset(s) == multiset(t)
    ensures |s| == |t| && forall x :: x in s <==> x in t
  {
    assert |multiset(s)| == |s| && |multiset(t)| == |t|;
    forall x ensures x in s <==> x in t {
      assert x in s <==> x in multiset(s);
      assert x in t <==> x in multiset(t);
    }
  }

  lemma MulMonotone(a: nat, b: nat, c: nat)
    requires a <= b
    ensures a * c <= b * c
  {
    assert b * c == a * c + (b - a) * c;
  }

  predicate NoRepeats<T(==)>(s: seq<T>) {
    forall i, j | 0 <= i < j < |s| :: s[i] != s[j]
  }

  /** The elements of the list that satisfy the predicate. */
  function Where<T(==)>(s: seq<T>, p: T -> bool): set<T> {
    set x | x in s && p(x)
  }

  lemma WhereOneMore<T>(s: seq<T>, x: T, p: T -> bool)
    requires x !in s
    ensures |Where(s + [x], p)| == |Where(s, p)| + if p(x) then 1 else 0
  {
    assert Where(s + [x], p) == Where(s, p) + if p(x) then {x} else {};
  }

  lemma FrontHasNoRepeats<T>(s: seq<T>)
    requires NoRepeats(s) && s != []
    ensures NoRepeats(s[..|s| - 1]) && s[|s| - 1] !in s[..|s| - 1] && s == s[..|s| - 1] + [s[|s| - 1]]
  {
  }

  lemma OneMoreHasNoRepeats<T>(s: seq<T>, x: T)
    requires NoRepeats(s) && x !in s
    ensures NoRepeats(s + [x])
  {
  }

  lemma {:induction false} SizeWithoutRepeats<T>(s: seq<T>)
    requires NoRepeats(s)
    ensures |Where(s, (x: T) => true)| == |s|
  {
    if s != [] {
      FrontHasNoRepeats(s);
      SizeWithoutRepeats(s[..|s| - 1]);
      WhereOneMore(s[..|s| - 1], s[|s| - 1], (x: T) => true);
    }
  }
}
