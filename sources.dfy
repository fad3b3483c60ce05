/**
 * "First acceptable source wins": both the exchange-rate refresh and the
 * price fallback chain query an ordered list of sources, each of which either
 * yields a number or nothing (a failed request, a missing field or an
 * exception are all "nothing"), and keep the first number that passes a test.
 */
module Sources {
  import opened Wrappers

  /** The source result `o` holds a value that passes `ok`. */
  predicate Accepts(o: Option<real>, ok: real -> bool)
  {
    o.Some? && ok(o.value)
  }

  /** Source `k` is the first one whose result passes `ok`. */
  predicate IsFirstAccepted(s: seq<Option<real>>, ok: real -> bool, k: int)
  {
    0 <= k < |s| && Accepts(s[k], ok) && forall j :: 0 <= j < k ==> !Accepts(s[j], ok)
  }

  /** The result of the first source in `s` whose value passes `ok`, if any. */
  function FirstWhere(s: seq<Option<real>>, ok: real -> bool): (r: Option<real>)
    ensures r.Some? ==> ok(r.value) && r in s
  {
    if s == [] then None
    else if Accepts(s[0], ok) then s[0]
    else FirstWhere(s[1..], ok)
  }

  /** Nothing is selected exactly when no source passes the test. */
  lemma {:induction false} FirstWhereNone(s: seq<Option<real>>, ok: real -> bool)
    ensures FirstWhere(s, ok).None? <==> forall i :: 0 <= i < |s| ==> !Accepts(s[i], ok)
  {
    if s != [] {
      FirstWhereNone(s[1..], ok);
      if !Accepts(s[0], ok) {
        assert forall i :: 1 <= i < |s| ==> s[i] == s[1..][i - 1];
      }
    }
  }

  /** The first accepted source is the one selected. */
  lemma {:induction false} FirstWhereAt(s: seq<Option<real>>, ok: real -> bool, k: int)
    requires IsFirstAccepted(s, ok, k)
    ensures FirstWhere(s, ok) == s[k]
  {
    if k > 0 {
      assert IsFirstAccepted(s[1..], ok, k - 1) by {
        assert forall j :: 0 <= j < k - 1 ==> s[1..][j] == s[j + 1];
      }
      FirstWhereAt(s[1..], ok, k - 1);
    }
  }

  /** Whatever is selected comes from the first accepted source. */
  lemma {:induction false} FirstWhereSome(s: seq<Option<real>>, ok: real -> bool)
    requires FirstWhere(s, ok).Some?
    ensures exists k :: IsFirstAccepted(s, ok, k) && s[k] == FirstWhere(s, ok)
  {
    if Accepts(s[0], ok) {
      assert IsFirstAccepted(s, ok, 0);
    } else {
      FirstWhereSome(s[1..], ok);
      var k :| IsFirstAccepted(s[1..], ok, k) && s[1..][k] == FirstWhere(s[1..], ok);
      assert IsFirstAccepted(s, ok, k + 1);
    }
  }
}
