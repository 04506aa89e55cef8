/**
 * Python's ordering of strings: lexicographic by code point, a proper prefix
 * first. Used by `sorted` on usernames and by the label tie-break when
 * sorting groups.
 */
module Lex {

  predicate LexLe(s: string, t: string)
  {
    s == [] || (t != [] && (s[0] < t[0] || (s[0] == t[0] && LexLe(s[1..], t[1..]))))
  }

  predicate LexLt(s: string, t: string)
  {
    LexLe(s, t) && s != t
  }

  lemma {:induction false} LexLeReflexive(s: string)
    ensures LexLe(s, s)
  {
    if s != [] {
      LexLeReflexive(s[1..]);
    }
  }

  lemma {:induction false} LexLeTotal(s: string, t: string)
    ensures LexLe(s, t) || LexLe(t, s)
  {
    if s != [] && t != [] && s[0] == t[0] {
      LexLeTotal(s[1..], t[1..]);
    }
  }

  lemma {:induction false} LexLeAntisymmetric(s: string, t: string)
    requires LexLe(s, t) && LexLe(t, s)
    ensures s == t
  {
    if s != [] && t != [] {
      LexLeAntisymmetric(s[1..], t[1..]);
      assert s == [s[0]] + s[1..] && t == [t[0]] + t[1..];
    }
  }

  lemma {:induction false} LexLeTransitive(s: string, t: string, u: string)
    requires LexLe(s, t) && LexLe(t, u)
    ensures LexLe(s, u)
  {
    if s != [] && s[0] == t[0] && t[0] == u[0] {
      LexLeTransitive(s[1..], t[1..], u[1..]);
    }
  }

  /** The strict order is a strict total order on strings. */
  lemma LexLtOrder(s: string, t: string, u: string)
    ensures !LexLt(s, s)
    ensures s != t ==> LexLt(s, t) || LexLt(t, s)
    ensures LexLt(s, t) ==> !LexLt(t, s)
    ensures LexLt(s, t) && LexLt(t, u) ==> LexLt(s, u)
  {
    LexLeTotal(s, t);
    if LexLt(s, t) && LexLt(t, s) {
      LexLeAntisymmetric(s, t);
    }
    if LexLt(s, t) && LexLt(t, u) {
      LexLeTransitive(s, t, u);
      if s == u {
        LexLeAntisymmetric(s, t);
      }
    }
  }
}
