/** Lexicographic order of sequences, from a strict total order of their elements. */
module Lexicographic {

  predicate Less<T(==)>(lt: (T, T) -> bool, s: seq<T>, t: seq<T>)
    decreases |s|
  {
    t != [] && (s == [] || lt(s[0], t[0]) || (s[0] == t[0] && Less(lt, s[1..], t[1..])))
  }

  ghost predicate StrictTotal<T(!new)>(lt: (T, T) -> bool) {
    && (forall a :: !lt(a, a))
    && (forall a, b, c :: lt(a, b) && lt(b, c) ==> lt(a, c))
    && forall a, b :: lt(a, b) || lt(b, a) || a == b
  }

  lemma {:induction false} LessTransitive<T(!new)>(lt: (T, T) -> bool, s: seq<T>, t: seq<T>, u: seq<T>)
    requires StrictTotal(lt) && Less(lt, s, t) && Less(lt, t, u)
    ensures Less(lt, s, u)
    decreases |s|
  {
    if s != [] && s[0] == t[0] && t[0] == u[0] {
      LessTransitive(lt, s[1..], t[1..], u[1..]);
    }
  }

  lemma {:induction false} LessTotal<T(!new)>(lt: (T, T) -> bool, s: seq<T>, t: seq<T>)
    requires StrictTotal(lt)
    ensures !(Less(lt, s, t) && Less(lt, t, s)) && (Less(lt, s, t) || Less(lt, t, s) <==> s != t)
    decreases |s|
  {
    if s != [] && t != [] && s[0] == t[0] {
      LessTotal(lt, s[1..], t[1..]);
      assert s == [s[0]] + s[1..] && t == [t[0]] + t[1..];
    }
  }
}
