/**
 * `GET /api/admin/users`: every row projected to
 * `id, email, phone, verified, created_at` (never the token), ordered by
 * `created_at` descending.
 */
module AdminListing {
  import opened Wrappers
  import opened Subscribers

  /** The endpoint's reply: the listing, or 500 with the store's message. */
  datatype AdminReply = Listed(users: seq<UserView>) | ListFailed(error: string)
  {
    /** The HTTP status the reply is sent with. */
    function Status(): (code: nat)
      ensures code == 200 <==> Listed?
      ensures code == 500 <==> ListFailed?
    {
      if Listed? then 200 else 500
    }
  }

  /** A listed user: a row without its verification token. */
  datatype UserView = UserView(id: nat, email: string, phone: Option<string>, verified: bool, createdAt: nat)

  function View(x: Subscriber): UserView
  {
    UserView(x.id, x.email, x.phone, x.verified, x.createdAt)
  }

  function Project(rs: seq<Subscriber>): (vs: seq<UserView>)
    ensures |vs| == |rs|
    ensures forall i :: 0 <= i < |rs| ==> vs[i] == View(rs[i])
  {
    seq(|rs|, i requires 0 <= i < |rs| => View(rs[i]))
  }

  /** Newest first: `created_at` never increases along the list. */
  ghost predicate NewestFirst(vs: seq<UserView>)
  {
    forall i, j :: 0 <= i < j < |vs| ==> vs[i].createdAt >= vs[j].createdAt
  }

  /** Places `v` into a newest-first list. */
  function InsertNewestFirst(v: UserView, vs: seq<UserView>): (r: seq<UserView>)
    requires NewestFirst(vs)
    ensures NewestFirst(r)
    ensures multiset(r) == multiset(vs) + multiset{v}
  {
    if vs == [] then [v]
    else if v.createdAt >= vs[0].createdAt then [v] + vs
    else
      var rest := InsertNewestFirst(v, vs[1..]);
      assert vs == [vs[0]] + vs[1..];
      assert forall k :: 0 <= k < |rest| ==> vs[0].createdAt >= rest[k].createdAt by {
        forall k | 0 <= k < |rest| ensures vs[0].createdAt >= rest[k].createdAt {
          assert rest[k] in multiset(vs[1..]) + multiset{v};
        }
      }
      [vs[0]] + rest
  }

  /** `order('created_at', { ascending: false })`. */
  function SortNewestFirst(vs: seq<UserView>): (r: seq<UserView>)
    ensures NewestFirst(r)
    ensures multiset(r) == multiset(vs)
  {
    if vs == [] then []
    else
      assert vs == [vs[0]] + vs[1..];
      InsertNewestFirst(vs[0], SortNewestFirst(vs[1..]))
  }

  /** The listing the endpoint returns for the table `rs`. */
  function Listing(rs: seq<Subscriber>): (r: seq<UserView>)
    ensures NewestFirst(r)
    ensures multiset(r) == multiset(Project(rs))
    ensures |r| == |rs|
  {
    var r := SortNewestFirst(Project(rs));
    assert |r| == |multiset(r)| == |multiset(Project(rs))| == |rs|;
    r
  }

  function Reverse(vs: seq<UserView>): (r: seq<UserView>)
    ensures |r| == |vs|
    ensures forall i :: 0 <= i < |vs| ==> r[i] == vs[|vs| - 1 - i]
  {
    if vs == [] then [] else Reverse(vs[1..]) + [vs[0]]
  }

  /** A view older than everything in a newest-first list goes to its end. */
  lemma {:induction false} InsertOldest(v: UserView, vs: seq<UserView>)
    requires NewestFirst(vs)
    requires forall k :: 0 <= k < |vs| ==> v.createdAt < vs[k].createdAt
    ensures InsertNewestFirst(v, vs) == vs + [v]
  {
    if vs != [] {
      InsertOldest(v, vs[1..]);
      assert vs == [vs[0]] + vs[1..];
    }
  }

  /** Oldest first, without ties. */
  ghost predicate StrictlyOldestFirst(vs: seq<UserView>)
  {
    forall i, j :: 0 <= i < j < |vs| ==> vs[i].createdAt < vs[j].createdAt
  }

  /** The first of strictly increasing views is older than every view of the reversed rest. */
  lemma FirstIsOldest(vs: seq<UserView>)
    requires vs != [] && StrictlyOldestFirst(vs)
    ensures NewestFirst(Reverse(vs[1..]))
    ensures forall k :: 0 <= k < |vs| - 1 ==> vs[0].createdAt < Reverse(vs[1..])[k].createdAt
  {
  }

  /** Views strictly increasing in `created_at` sort to their reverse. */
  lemma {:induction false} SortIncreasing(vs: seq<UserView>)
    requires StrictlyOldestFirst(vs)
    ensures SortNewestFirst(vs) == Reverse(vs)
  {
    if vs != [] {
      var tail := vs[1..];
      assert StrictlyOldestFirst(tail) by {
        forall i, j | 0 <= i < j < |tail| ensures tail[i].createdAt < tail[j].createdAt {
          assert tail[i] == vs[i + 1] && tail[j] == vs[j + 1];
        }
      }
      SortIncreasing(tail);
      var sorted := SortNewestFirst(tail);
      FirstIsOldest(vs);
      InsertOldest(vs[0], sorted);
      assert vs == [vs[0]] + tail;
      assert SortNewestFirst(vs) == InsertNewestFirst(vs[0], sorted);
      assert Reverse(vs) == Reverse(tail) + [vs[0]];
    }
  }

  /** On a well-formed table (rows in creation order) the listing is the table read backwards. */
  lemma ListingIsTableReversed(s: Store)
    requires Wellformed(s)
    ensures Listing(s.rows) == Reverse(Project(s.rows))
  {
    var vs := Project(s.rows);
    assert StrictlyOldestFirst(vs) by {
      forall i, j | 0 <= i < j < |vs| ensures vs[i].createdAt < vs[j].createdAt {
        assert vs[i] == View(s.rows[i]) && vs[j] == View(s.rows[j]);
      }
    }
    SortIncreasing(vs);
  }
}
