// The migration that leaves one wallet per user and two decimals: the sums go
// onto the oldest row, the other rows go, and what is left is rounded and checked.
module WalletMerge {
  import opened Ledger
  import opened Money

  datatype Row = Row(id: nat, user: UserId, created: int, available: Amount, escrow: Amount)
  {
    function In(bucket: Bucket): Amount {
      if bucket == Available then available else escrow
    }
  }

  /** The order the kept row is chosen by: creation time, then id. */
  predicate Before(r: Row, s: Row) {
    r.created < s.created || (r.created == s.created && r.id < s.id)
  }

  function SumFor(rows: seq<Row>, user: UserId, bucket: Bucket): Amount {
    if rows == [] then 0
    else SumFor(Init(rows), user, bucket) + (if Last(rows).user == user then Last(rows).In(bucket) else 0)
  }

  /** Every row of the user adds its own bucket, and nobody else's adds anything. */
  lemma SumAdds(rows: seq<Row>, r: Row, user: UserId)
    ensures SumFor([], user, Available) == SumFor([], user, Bucket.Escrow) == 0
    ensures SumFor(rows + [r], user, Available) ==
              SumFor(rows, user, Available) + (if r.user == user then r.available else 0)
    ensures SumFor(rows + [r], user, Bucket.Escrow) ==
              SumFor(rows, user, Bucket.Escrow) + (if r.user == user then r.escrow else 0)
  {
    assert Init(rows + [r]) == rows;
  }

  /** `SELECT DISTINCT ON (user_id) ... ORDER BY user_id, created_at, id`. */
  predicate IsKept(rows: seq<Row>, r: Row) {
    forall s :: s in rows && s.user == r.user ==> s == r || Before(r, s)
  }

  ghost predicate UniqueIds(rows: seq<Row>) {
    forall i, j :: 0 <= i < j < |rows| ==> rows[i].id != rows[j].id
  }

  ghost predicate OnePerUser(rows: seq<Row>) {
    forall i, j :: 0 <= i < j < |rows| ==> rows[i].user != rows[j].user
  }

  predicate Has(rows: seq<Row>, user: UserId) {
    exists r :: r in rows && r.user == user
  }

  /** Every user that has rows has an oldest one. */
  lemma {:induction false} OldestExists(rows: seq<Row>, user: UserId) returns (r: Row)
    requires UniqueIds(rows) && Has(rows, user)
    ensures r in rows && r.user == user && IsKept(rows, r)
  {
    var most := Init(rows);
    assert rows == most + [Last(rows)];
    if Has(most, user) {
      var q := OldestExists(most, user);
      if Last(rows).user == user && Before(Last(rows), q) {
        r := Last(rows);
      } else {
        r := q;
        assert Last(rows).user == user ==> Before(q, Last(rows)) by {
          var i :| 0 <= i < |most| && most[i] == q;
          assert rows[i].id != rows[|rows| - 1].id;
        }
      }
    } else {
      r := Last(rows);
      assert r.user == user;
    }
  }

  lemma {:induction false} NoRowsNoSum(rows: seq<Row>, user: UserId, bucket: Bucket)
    requires !Has(rows, user)
    ensures SumFor(rows, user, bucket) == 0
  {
    if rows != [] {
      assert rows == Init(rows) + [Last(rows)];
      NoRowsNoSum(Init(rows), user, bucket);
    }
  }

  /** With one row per user the sum is that row. */
  lemma {:induction false} SumOfOne(rows: seq<Row>, i: nat, bucket: Bucket)
    requires i < |rows| && OnePerUser(rows)
    ensures SumFor(rows, rows[i].user, bucket) == rows[i].In(bucket)
  {
    if i == |rows| - 1 {
      assert !Has(Init(rows), rows[i].user);
      NoRowsNoSum(Init(rows), rows[i].user, bucket);
    } else {
      SumOfOne(Init(rows), i, bucket);
    }
  }

  class WalletTable {
    var rows: seq<Row>

    constructor (rows: seq<Row>)
      ensures this.rows == rows
    {
      this.rows := rows;
    }

    method CountDuplicates() returns (found: bool)
      ensures found <==> !OnePerUser(rows)
    {
      var i := 0;
      while i < |rows|
        invariant 0 <= i <= |rows|
        invariant OnePerUser(rows[..i])
      {
        var j := 0;
        while j < i
          invariant 0 <= j <= i
          invariant forall k :: 0 <= k < j ==> rows[k].user != rows[i].user
        {
          if rows[j].user == rows[i].user {
            return true;
          }
          j := j + 1;
        }
        i := i + 1;
      }
      assert rows[..|rows|] == rows;
      return false;
    }

    /** The update: sums, taken from the table as it was, onto the oldest rows. */
    method UpdateKept()
      modifies this
      ensures |rows| == |old(rows)|
      ensures forall j :: 0 <= j < |rows| ==> rows[j] == WithSums(old(rows), old(rows)[j])
    {
      var was := rows;
      var i := 0;
      while i < |was|
        invariant 0 <= i <= |was| && |rows| == |was|
        invariant forall j :: 0 <= j < i ==> rows[j] == WithSums(was, was[j])
        invariant forall j :: i <= j < |was| ==> rows[j] == was[j]
      {
        if IsKept(was, was[i]) {
          rows := rows[i := was[i].(available := SumFor(was, was[i].user, Available),
            escrow := SumFor(was, was[i].user, Bucket.Escrow))];
        }
        i := i + 1;
      }
    }

    /** The delete. */
    method DeleteRest()
      modifies this
      ensures rows == Remaining(old(rows), |old(rows)|)
    {
      var kept: seq<Row> := [];
      var i := 0;
      while i < |rows|
        invariant rows == old(rows)
        invariant 0 <= i <= |rows|
        invariant kept == Remaining(rows, i)
      {
        if IsKept(rows, rows[i]) {
          kept := kept + [rows[i]];
        }
        i := i + 1;
      }
      rows := kept;
    }

    /** Sum onto the oldest rows, then delete the rest. */
    method MergeDuplicates()
      requires UniqueIds(rows)
      modifies this
      ensures rows == Merged(old(rows))
    {
      var duplicates := CountDuplicates();
      if !duplicates {
        KeepsAll(rows, |rows|);
        assert rows[..|rows|] == rows;
        return;
      }
      ghost var was := rows;
      UpdateKept();
      forall j: nat | j < |was| ensures RowUpdated(was, rows, j) {
        StillKept(was, rows, j);
      }
      RemainingIsKept(was, rows, |rows|);
      DeleteRest();
    }

    /** Both columns become amounts with two decimals. */
    method RoundBalances()
      modifies this
      ensures rows == Rounded(old(rows))
    {
      var was := rows;
      var i := 0;
      while i < |was|
        invariant 0 <= i <= |rows| == |was|
        invariant forall j :: 0 <= j < i ==> rows[j] == RoundRow(was[j])
        invariant forall j :: i <= j < |was| ==> rows[j] == was[j]
      {
        var r := was[i];
        rows := rows[i := r.(available := RoundHalfAway(r.available), escrow := RoundHalfAway(r.escrow))];
        i := i + 1;
      }
      RoundedRows(was);
      assert rows == Rounded(was);
    }

    /** The whole step; false is a constraint failing: a balance below zero. */
    method Upgrade() returns (ok: bool)
      requires UniqueIds(rows)
      modifies this
      ensures rows == Normalised(old(rows)) && OnePerUser(rows)
      ensures ok <==> RoundsToNothingNegative(old(rows))
    {
      ghost var was := rows;
      MergeDuplicates();
      RoundBalances();
      ok := forall r :: r in rows ==> r.available >= 0 && r.escrow >= 0;
      CheckedMeans(was);
    }
  }

  /** Updating balances does not change which row is the oldest. */
  lemma StillKept(was: seq<Row>, updated: seq<Row>, i: nat)
    requires |updated| == |was| && i < |was| && forall j :: 0 <= j < |was| ==> updated[j] == WithSums(was, was[j])
    requires UniqueIds(was)
    ensures IsKept(updated, updated[i]) <==> IsKept(was, was[i])
  {
    if IsKept(was, was[i]) {
      forall s | s in updated && s.user == updated[i].user ensures s == updated[i] || Before(updated[i], s) {
        var j :| 0 <= j < |updated| && updated[j] == s;
        assert was[j] in was;
      }
    }
    if IsKept(updated, updated[i]) {
      forall s | s in was && s.user == was[i].user ensures s == was[i] || Before(was[i], s) {
        var j :| 0 <= j < |was| && was[j] == s;
        assert updated[j] in updated;
        if j != i {
          assert was[j].id != was[i].id;
        }
      }
    }
  }

  function Remaining(rows: seq<Row>, n: nat): seq<Row>
    requires n <= |rows|
  {
    if n == 0 then [] else Remaining(rows, n - 1) + (if IsKept(rows, rows[n - 1]) then [rows[n - 1]] else [])
  }

  /** The j-th row has its new balances, and is the oldest exactly if it was. */
  ghost predicate RowUpdated(was: seq<Row>, updated: seq<Row>, j: nat)
    requires |updated| == |was| && j < |was|
  {
    updated[j] == WithSums(was, was[j]) && (IsKept(updated, updated[j]) <==> IsKept(was, was[j]))
  }

  lemma {:induction false} RemainingIsKept(was: seq<Row>, updated: seq<Row>, n: nat)
    requires |updated| == |was| && n <= |was|
    requires forall j: nat :: j < n ==> RowUpdated(was, updated, j)
    ensures Remaining(updated, n) == KeptRows(was, n)
  {
    if n > 0 {
      RemainingIsKept(was, updated, n - 1);
      assert RowUpdated(was, updated, n - 1);
    }
  }

  /** A row after the update: a kept one has the sums. */
  function WithSums(was: seq<Row>, r: Row): Row {
    if IsKept(was, r) then r.(available := SumFor(was, r.user, Available), escrow := SumFor(was, r.user, Bucket.Escrow))
      else r
  }

  /** The first `n` rows after the update and the delete. */
  function KeptRows(was: seq<Row>, n: nat): seq<Row>
    requires n <= |was|
  {
    if n == 0 then []
    else KeptRows(was, n - 1) + (if IsKept(was, was[n - 1]) then [WithSums(was, was[n - 1])] else [])
  }

  function Merged(was: seq<Row>): seq<Row> {
    KeptRows(was, |was|)
  }

  /** Where a row of the result comes from. */
  lemma {:induction false} Origin(was: seq<Row>, n: nat, r: Row) returns (j: nat)
    requires n <= |was| && r in KeptRows(was, n)
    ensures j < n && IsKept(was, was[j]) && r == WithSums(was, was[j])
  {
    if r in KeptRows(was, n - 1) {
      j := Origin(was, n - 1, r);
    } else {
      j := n - 1;
    }
  }

  lemma {:induction false} KeptIsThere(was: seq<Row>, n: nat, j: nat)
    requires j < n <= |was| && IsKept(was, was[j])
    ensures WithSums(was, was[j]) in KeptRows(was, n)
  {
    if j < n - 1 {
      KeptIsThere(was, n - 1, j);
    }
  }

  /** Two kept rows of one user are the same row. */
  lemma KeptOnce(rows: seq<Row>, i: nat, j: nat)
    requires UniqueIds(rows) && i < j < |rows| && IsKept(rows, rows[i]) && IsKept(rows, rows[j])
    ensures rows[i].user != rows[j].user && rows[i].id != rows[j].id
  {
    assert rows[i].id != rows[j].id;
    assert rows[i] in rows && rows[j] in rows;
  }

  lemma {:induction false} KeptDistinct(was: seq<Row>, n: nat)
    requires UniqueIds(was) && n <= |was|
    ensures OnePerUser(KeptRows(was, n)) && UniqueIds(KeptRows(was, n))
  {
    if n > 0 {
      KeptDistinct(was, n - 1);
      var shorter := KeptRows(was, n - 1);
      if IsKept(was, was[n - 1]) {
        forall r | r in shorter ensures r.user != was[n - 1].user && r.id != was[n - 1].id {
          var j := Origin(was, n - 1, r);
          KeptOnce(was, j, n - 1);
        }
      }
    }
  }

  /** With one row per user the merge changes nothing. */
  lemma {:induction false} KeepsAll(rows: seq<Row>, n: nat)
    requires OnePerUser(rows) && n <= |rows|
    ensures KeptRows(rows, n) == rows[..n]
  {
    if n > 0 {
      KeepsAll(rows, n - 1);
      var r := rows[n - 1];
      forall s | s in rows && s.user == r.user ensures s == r {
        var j :| 0 <= j < |rows| && rows[j] == s;
      }
      SumOfOne(rows, n - 1, Available);
      SumOfOne(rows, n - 1, Bucket.Escrow);
      assert rows[..n] == rows[..n - 1] + [r];
    }
  }

  lemma NoNewUsers(was: seq<Row>, u: UserId)
    ensures Has(Merged(was), u) ==> Has(was, u)
  {
    if r :| r in Merged(was) && r.user == u {
      var j := Origin(was, |was|, r);
      assert was[j] in was && was[j].user == u;
    }
  }

  /** Afterwards each user who had wallets has exactly one, the oldest of them,
      holding what all of theirs held together, bucket by bucket. */
  lemma MergePreserves(was: seq<Row>, u: UserId, k: Bucket)
    requires UniqueIds(was)
    ensures OnePerUser(Merged(was)) && UniqueIds(Merged(was))
    ensures Has(Merged(was), u) <==> Has(was, u)
    ensures SumFor(Merged(was), u, k) == SumFor(was, u, k)
    ensures Has(was, u) ==> exists r, s ::
              r in Merged(was) && s in was && r.user == s.user == u && r.id == s.id && r.created == s.created
              && r.In(k) == SumFor(was, u, k)
              && forall t :: t in was && t.user == u ==>
                   s.created < t.created || (s.created == t.created && s.id <= t.id)
  {
    var rows := Merged(was);
    KeptDistinct(was, |was|);
    if Has(was, u) {
      var s := OldestExists(was, u);
      var j :| 0 <= j < |was| && was[j] == s;
      KeptIsThere(was, |was|, j);
      var r := WithSums(was, s);
      var a :| 0 <= a < |rows| && rows[a] == r;
      SumOfOne(rows, a, k);
      assert r in rows && r.user == u;
    } else {
      NoNewUsers(was, u);
      NoRowsNoSum(rows, u, k);
      NoRowsNoSum(was, u, k);
    }
  }

  /** So merging again changes nothing. */
  lemma MergeIsIdempotent(was: seq<Row>)
    requires UniqueIds(was)
    ensures Merged(Merged(was)) == Merged(was)
  {
    KeptDistinct(was, |was|);
    KeepsAll(Merged(was), |Merged(was)|);
  }

  // -------------------------------------------------------------- two decimals

  function RoundRow(r: Row): Row {
    r.(available := RoundHalfAway(r.available), escrow := RoundHalfAway(r.escrow))
  }

  function Rounded(rows: seq<Row>): seq<Row> {
    if rows == [] then [] else Rounded(Init(rows)) + [RoundRow(Last(rows))]
  }

  /** What the migration leaves. */
  function Normalised(was: seq<Row>): seq<Row> {
    Rounded(Merged(was))
  }

  /** The two constraints: no balance is negative. */
  predicate Checked(rows: seq<Row>) {
    forall r :: r in rows ==> r.available >= 0 && r.escrow >= 0
  }

  lemma {:induction false} RoundedRows(rows: seq<Row>)
    ensures |Rounded(rows)| == |rows|
    ensures forall i :: 0 <= i < |rows| ==> Rounded(rows)[i] == RoundRow(rows[i])
  {
    if rows != [] {
      RoundedRows(Init(rows));
    }
  }

  lemma RoundedUsers(rows: seq<Row>, u: UserId)
    ensures OnePerUser(rows) ==> OnePerUser(Rounded(rows))
    ensures Has(Rounded(rows), u) <==> Has(rows, u)
  {
    RoundedRows(rows);
    if r :| r in rows && r.user == u {
      var i :| 0 <= i < |rows| && rows[i] == r;
      assert Rounded(rows)[i] in Rounded(rows);
    }
    if r :| r in Rounded(rows) && r.user == u {
      var i :| 0 <= i < |rows| && Rounded(rows)[i] == r;
      assert rows[i] in rows;
    }
  }

  lemma OneRow(rows: seq<Row>, u: UserId) returns (i: nat)
    requires Has(rows, u)
    ensures i < |rows| && rows[i].user == u
  {
    var r :| r in rows && r.user == u;
    i :| 0 <= i < |rows| && rows[i] == r;
  }

  /** Each user who had wallets ends with one, holding in each bucket the sum of
      theirs, rounded once, after it was made. */
  lemma NormalisePreserves(was: seq<Row>, u: UserId, k: Bucket)
    requires UniqueIds(was)
    ensures OnePerUser(Normalised(was))
    ensures Has(Normalised(was), u) <==> Has(was, u)
    ensures SumFor(Normalised(was), u, k) == RoundHalfAway(SumFor(was, u, k))
  {
    MergePreserves(was, u, k);
    RoundedUsers(Merged(was), u);
    if Has(was, u) {
      var i := OneRow(Merged(was), u);
      RoundedRows(Merged(was));
      SumOfOne(Merged(was), i, k);
      SumOfOne(Normalised(was), i, k);
    } else {
      NoRowsNoSum(Normalised(was), u, k);
      NoRowsNoSum(was, u, k);
    }
  }

  /** Nobody's sums round to less than zero. */
  ghost predicate RoundsToNothingNegative(was: seq<Row>) {
    forall u: UserId, k: Bucket :: Has(was, u) ==> RoundHalfAway(SumFor(was, u, k)) >= 0
  }

  /** Exactly then the constraints hold. */
  lemma CheckedMeans(was: seq<Row>)
    requires UniqueIds(was)
    ensures OnePerUser(Normalised(was))
    ensures Checked(Normalised(was)) <==> RoundsToNothingNegative(was)
  {
    var rows := Normalised(was);
    NormalisePreserves(was, 0, Available);
    if Checked(rows) {
      forall u: UserId, k: Bucket | Has(was, u) ensures RoundHalfAway(SumFor(was, u, k)) >= 0 {
        NormalisePreserves(was, u, k);
        var i := OneRow(rows, u);
        SumOfOne(rows, i, k);
        assert rows[i] in rows;
      }
    }
    if RoundsToNothingNegative(was) {
      forall i: nat, k: Bucket | i < |rows| ensures rows[i].In(k) >= 0 {
        assert rows[i] in rows;
        NormalisePreserves(was, rows[i].user, k);
        SumOfOne(rows, i, k);
      }
      forall r | r in rows ensures r.available >= 0 && r.escrow >= 0 {
        assert r.In(Available) >= 0 && r.In(Bucket.Escrow) >= 0;
      }
    }
  }
}
