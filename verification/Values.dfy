/** The values a cell can hold, and the comparisons the relational operators make.
    Constants are hash-consed in NodeBrain, so comparing two value pointers is comparing two values. */
module Values {

  datatype Value = Unknown | False | True | Real(number: real) | Text(text: string)

  /** Any value other than Unknown and False counts as true (object kind TRUE). */
  predicate IsTrue(v: Value) {
    v != Unknown && v != False
  }

  /** The sign of `strcmp(s, t)`: negative, zero or positive. */
  function Compare(s: string, t: string): int {
    if s == [] then (if t == [] then 0 else -1)
    else if t == [] then 1
    else if s[0] < t[0] then -1
    else if t[0] < s[0] then 1
    else Compare(s[1..], t[1..])
  }

  lemma {:induction false} CompareIsAntisymmetric(s: string, t: string)
    ensures Compare(s, t) == -Compare(t, s)
    ensures Compare(s, t) == 0 <==> s == t
  {
    if s != [] && t != [] && s[0] == t[0] {
      CompareIsAntisymmetric(s[1..], t[1..]);
      assert s == [s[0]] + s[1..] && t == [t[0]] + t[1..];
    }
  }

  lemma {:induction false} CompareIsTransitive(s: string, t: string, u: string)
    requires Compare(s, t) <= 0 && Compare(t, u) <= 0
    ensures Compare(s, u) <= 0
    ensures Compare(s, t) < 0 || Compare(t, u) < 0 ==> Compare(s, u) < 0
  {
    if s != [] && t != [] && u != [] && s[0] == t[0] && t[0] == u[0] {
      CompareIsTransitive(s[1..], t[1..], u[1..]);
    }
  }

  /** `s` comes before `t` in a dictionary: it is a beginning of `t`, or has the smaller character where they first
      differ. */
  predicate DictionaryBefore(s: string, t: string) {
    s < t || exists k :: 0 <= k < |s| && k < |t| && s[..k] == t[..k] && s[k] < t[k]
  }

  lemma {:induction false} CompareIsDictionaryOrder(s: string, t: string)
    ensures Compare(s, t) < 0 <==> DictionaryBefore(s, t)
    ensures Compare(s, t) > 0 <==> DictionaryBefore(t, s)
  {
    if s != [] && t != [] && s[0] == t[0] {
      CompareIsDictionaryOrder(s[1..], t[1..]);
      BeforeInTail(s, t);
      BeforeInTail(t, s);
    } else {
      FirstDiffers(s, t);
      FirstDiffers(t, s);
    }
  }

  lemma BeforeInTail(s: string, t: string)
    requires s != [] && t != [] && s[0] == t[0]
    ensures DictionaryBefore(s, t) <==> DictionaryBefore(s[1..], t[1..])
  {
    assert s == [s[0]] + s[1..] && t == [t[0]] + t[1..];
    if k :| 0 <= k < |s| && k < |t| && s[..k] == t[..k] && s[k] < t[k] {
      assert s[1..][..k - 1] == s[..k][1..] && t[1..][..k - 1] == t[..k][1..];
      assert s[1..][k - 1] < t[1..][k - 1];
    }
    if k :| 0 <= k < |s[1..]| && k < |t[1..]| && s[1..][..k] == t[1..][..k] && s[1..][k] < t[1..][k] {
      assert s[..k + 1] == [s[0]] + s[1..][..k] && t[..k + 1] == [t[0]] + t[1..][..k];
      assert s[k + 1] < t[k + 1];
    }
  }

  lemma FirstDiffers(s: string, t: string)
    requires s == [] || t == [] || s[0] != t[0]
    ensures DictionaryBefore(s, t) <==> t != [] && (s == [] || s[0] < t[0])
  {
    BeginAlike(s, t);
    if s != [] && t != [] && s[0] < t[0] {
      assert s[..0] == t[..0];
    }
  }

  lemma BeginAlike(s: string, t: string)
    ensures forall k :: 0 < k <= |s| && k <= |t| && s[..k] == t[..k] ==> s[0] == t[0]
  {
    forall k | 0 < k <= |s| && k <= |t| && s[..k] == t[..k] ensures s[0] == t[0] {
      assert s[0] == s[..k][0];
    }
  }

  /** Two values have the same object type. */
  predicate SameType(v: Value, w: Value) {
    match v
    case Unknown => w.Unknown?
    case False => w.False?
    case True => w.True?
    case Real(_) => w.Real?
    case Text(_) => w.Text?
  }

  function EvalEQ(left: Value, right: Value): Value {
    if left == Unknown || right == Unknown then Unknown
    else if left == right then True
    else False
  }

  function EvalNE(left: Value, right: Value): Value {
    if left == Unknown || right == Unknown then Unknown
    else if left == right then False
    else True
  }

  function EvalLT(left: Value, right: Value): Value {
    if left == Unknown || right == Unknown then Unknown
    else if !SameType(left, right) then Unknown
    else if left.Text? && Compare(left.text, right.text) < 0 then True
    else if left.Real? && left.number < right.number then True
    else False
  }

  function EvalLE(left: Value, right: Value): Value {
    if left == Unknown || right == Unknown then Unknown
    else if !SameType(left, right) then Unknown
    else if left.Text? && Compare(left.text, right.text) <= 0 then True
    else if left.Real? && left.number <= right.number then True
    else False
  }

  function EvalGT(left: Value, right: Value): Value {
    if left == Unknown || right == Unknown then Unknown
    else if !SameType(left, right) then Unknown
    else if left.Text? && Compare(left.text, right.text) > 0 then True
    else if left.Real? && left.number > right.number then True
    else False
  }

  function EvalGE(left: Value, right: Value): Value {
    if left == Unknown || right == Unknown then Unknown
    else if !SameType(left, right) then Unknown
    else if left.Text? && Compare(left.text, right.text) >= 0 then True
    else if left.Real? && left.number >= right.number then True
    else False
  }
}
