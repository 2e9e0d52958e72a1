/**
 * The `subscribers` table: its rows, the queries the handlers run on it
 * (`select ... eq(column, value)` read through `.maybeSingle()`, and
 * `update({ verified: true }) ... eq('verification_token', token)`), and
 * the invariants the table keeps.
 */
module Subscribers {
  import opened Wrappers

  /** One row. `id` and `createdAt` are both taken from the registry's insertion counter. */
  datatype Subscriber = Subscriber(
    id: nat,
    email: string,
    phone: Option<string>,
    token: string,
    verified: bool,
    createdAt: nat)

  /** The whole table, with the counter that supplies the next row's `id` and `createdAt`. */
  datatype Store = Store(rows: seq<Subscriber>, nextId: nat)

  /** The two columns the handlers filter on. */
  datatype Column = Email | Token

  function Field(x: Subscriber, c: Column): string
  {
    match c
    case Email => x.email
    case Token => x.token
  }

  /** A request field that JavaScript treats as false: absent, or the empty string. */
  predicate Missing(v: Option<string>)
    ensures Missing(v) <==> v.None? || |v.value| == 0
  {
    v == None || v == Some("")
  }

  /** The rows whose column `c` equals `v`, in table order (`.eq(c, v)`). */
  function Matching(rs: seq<Subscriber>, c: Column, v: string): (r: seq<Subscriber>)
    ensures |r| <= |rs|
    ensures forall x :: x in r <==> x in rs && Field(x, c) == v
  {
    if rs == [] then []
    else if Field(rs[0], c) == v then [rs[0]] + Matching(rs[1..], c, v)
    else Matching(rs[1..], c, v)
  }

  /** What `.maybeSingle()` yields: no row, the one row, or an error when several rows match. */
  datatype Single = NoRow | OneRow(row: Subscriber) | ManyRows

  function MaybeSingle(matches: seq<Subscriber>): (r: Single)
    ensures r.NoRow? <==> matches == []
    ensures r.OneRow? ==> matches == [r.row]
    ensures r.ManyRows? <==> |matches| >= 2
  {
    if |matches| == 0 then NoRow
    else if |matches| == 1 then OneRow(matches[0])
    else ManyRows
  }

  /** `update({ verified: true }).eq('verification_token', t)`: every row carrying `t` is marked verified. */
  function MarkVerified(rs: seq<Subscriber>, t: string): (r: seq<Subscriber>)
    ensures |r| == |rs|
    ensures forall i :: 0 <= i < |rs| ==>
      r[i] == if rs[i].token == t then rs[i].(verified := true) else rs[i]
  {
    if rs == [] then []
    else [if rs[0].token == t then rs[0].(verified := true) else rs[0]] + MarkVerified(rs[1..], t)
  }

  /** No two rows agree on column `c` (the UNIQUE constraint on `email`). */
  ghost predicate UniqueOn(rs: seq<Subscriber>, c: Column)
  {
    forall i, j :: 0 <= i < j < |rs| ==> Field(rs[i], c) != Field(rs[j], c)
  }

  /** Rows are in creation order and the counter is ahead of every row. */
  ghost predicate CreationOrdered(s: Store)
  {
    (forall i, j :: 0 <= i < j < |s.rows| ==>
       s.rows[i].id < s.rows[j].id && s.rows[i].createdAt < s.rows[j].createdAt) &&
    (forall i :: 0 <= i < |s.rows| ==> s.rows[i].id < s.nextId && s.rows[i].createdAt < s.nextId)
  }

  /** The table's invariant: at most one row per email, rows in creation order. */
  ghost predicate Wellformed(s: Store)
  {
    UniqueOn(s.rows, Email) && CreationOrdered(s)
  }

  /** `y` is row `x` later on: only `verified` may have changed, and only from false to true. */
  ghost predicate Persists(x: Subscriber, y: Subscriber)
  {
    y == x.(verified := y.verified) && (x.verified ==> y.verified)
  }

  /** `b` is a later state of table `a`: every row of `a` persists at its place, new rows come after. */
  ghost predicate Evolves(a: seq<Subscriber>, b: seq<Subscriber>)
  {
    |a| <= |b| && forall i :: 0 <= i < |a| ==> Persists(a[i], b[i])
  }

  lemma EvolvesTransitive(a: seq<Subscriber>, b: seq<Subscriber>, c: seq<Subscriber>)
    requires Evolves(a, b) && Evolves(b, c)
    ensures Evolves(a, c)
  {
  }

  /** A value no row carries selects nothing. */
  lemma {:induction false} MatchingNone(rs: seq<Subscriber>, c: Column, v: string)
    requires forall k :: 0 <= k < |rs| ==> Field(rs[k], c) != v
    ensures Matching(rs, c, v) == []
  {
    if rs != [] {
      MatchingNone(rs[1..], c, v);
    }
  }

  /** Selecting from a concatenation selects from each part. */
  lemma {:induction false} MatchingAppend(a: seq<Subscriber>, b: seq<Subscriber>, c: Column, v: string)
    ensures Matching(a + b, c, v) == Matching(a, c, v) + Matching(b, c, v)
  {
    if a == [] {
      assert a + b == b;
    } else {
      assert (a + b)[0] == a[0] && (a + b)[1..] == a[1..] + b;
      MatchingAppend(a[1..], b, c, v);
      if Field(a[0], c) == v {
        assert Matching(a + b, c, v) == [a[0]] + (Matching(a[1..], c, v) + Matching(b, c, v));
      }
    }
  }

  /** Under a unique column, looking up the value of row `i` selects exactly that row. */
  lemma {:induction false} MatchingUnique(rs: seq<Subscriber>, c: Column, i: nat)
    requires UniqueOn(rs, c)
    requires i < |rs|
    ensures Matching(rs, c, Field(rs[i], c)) == [rs[i]]
  {
    var v := Field(rs[i], c);
    if i == 0 {
      assert forall k :: 0 <= k < |rs[1..]| ==> Field(rs[1..][k], c) != v by {
        forall k | 0 <= k < |rs[1..]| ensures Field(rs[1..][k], c) != v {
          assert rs[1..][k] == rs[k + 1];
        }
      }
      MatchingNone(rs[1..], c, v);
    } else {
      assert UniqueOn(rs[1..], c) by {
        forall a, b | 0 <= a < b < |rs[1..]| ensures Field(rs[1..][a], c) != Field(rs[1..][b], c) {
          assert rs[1..][a] == rs[a + 1] && rs[1..][b] == rs[b + 1];
        }
      }
      MatchingUnique(rs[1..], c, i - 1);
      assert rs[1..][i - 1] == rs[i];
      assert Field(rs[0], c) != v;
    }
  }

  /** Marking a token verified and then selecting that token gives the same rows, now verified. */
  lemma {:induction false} MatchingAfterMark(rs: seq<Subscriber>, t: string)
    ensures |Matching(MarkVerified(rs, t), Token, t)| == |Matching(rs, Token, t)|
    ensures forall k :: 0 <= k < |Matching(rs, Token, t)| ==>
      Matching(MarkVerified(rs, t), Token, t)[k] == Matching(rs, Token, t)[k].(verified := true)
  {
    if rs != [] {
      var m := MarkVerified(rs, t);
      assert m[1..] == MarkVerified(rs[1..], t);
      MatchingAfterMark(rs[1..], t);
    }
  }

  /** The update leaves the identity, email, phone and token of every row untouched. */
  lemma MarkVerifiedEvolves(rs: seq<Subscriber>, t: string)
    ensures Evolves(rs, MarkVerified(rs, t))
  {
  }
}
