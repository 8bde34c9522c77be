/** backend/app/api/routes/submissions.py, `get_leaderboard`: the best rows of an
    assignment, and the group-then-sort fallback that orders them. */
module Leaderboard {
  import opened Wrappers
  import opened Permutations

  type User = nat

  /** A submission with its run's worst negative slack. */
  datatype Submission = Submission(user: User, score: Option<real>, wns: Option<real>)

  /** One row of the query; `pos` is its position in the result set. */
  datatype Row = Row(pos: nat, user: User, score: real, wns: Option<real>)

  // ----- content: the best submissions of every user -----

  /** MAX(score) over the user's graded submissions; NULL when there is none. */
  function Best(subs: seq<Submission>, user: User): Option<real> {
    if subs == [] then None else
      var rest, s := Best(subs[..|subs| - 1], user), subs[|subs| - 1];
      if s.user != user || s.score.None? then rest
      else if rest.None? || s.score.value > rest.value then s.score else rest
  }

  /** The join condition: a submission that attains its user's best score. NULL
      never equals NULL. */
  predicate Attains(subs: seq<Submission>, s: Submission) {
    s.score.Some? && s.score == Best(subs, s.user)
  }

  /** The submissions that make a row, in submission order. */
  function Chosen(subs: seq<Submission>, all: seq<Submission>): seq<Submission> {
    if subs == [] then [] else
      Chosen(subs[..|subs| - 1], all) + (if Attains(all, subs[|subs| - 1]) then [subs[|subs| - 1]] else [])
  }

  lemma {:induction false} BestIsMaximum(subs: seq<Submission>, user: User)
    ensures Best(subs, user).None? <==> forall s <- subs :: s.user == user ==> s.score.None?
    ensures Best(subs, user).Some? ==>
      && (exists s <- subs :: s.user == user && s.score == Best(subs, user))
      && (forall s <- subs :: s.user == user && s.score.Some? ==> s.score.value <= Best(subs, user).value)
  {
    if subs != [] {
      var init, last := subs[..|subs| - 1], subs[|subs| - 1];
      BestIsMaximum(init, user);
      assert subs == init + [last];
      if Best(subs, user).Some? {
        if Best(init, user).Some? && Best(subs, user) == Best(init, user) {
          var s :| s in init && s.user == user && s.score == Best(init, user);
          assert s in subs;
        } else {
          assert last in subs;
        }
      }
    }
  }

  lemma {:induction false} ChosenAre(subs: seq<Submission>, all: seq<Submission>, s: Submission)
    ensures multiset(Chosen(subs, all))[s] == if Attains(all, s) then multiset(subs)[s] else 0
  {
    if subs != [] {
      var init, last := subs[..|subs| - 1], subs[|subs| - 1];
      ChosenAre(init, all, s);
      assert subs == init + [last];
    }
  }

  /** Every user with a graded submission has a row; every row carries its user's
      maximum; rows are one-to-one with the submissions that attain it; a user
      with none graded has no row. */
  lemma Content(subs: seq<Submission>, user: User, s: Submission)
    ensures (exists t <- subs :: t.user == user && t.score.Some?) <==> (exists c <- Chosen(subs, subs) :: c.user == user)
    ensures s in Chosen(subs, subs) ==> s in subs && s.score.Some?
    ensures s in Chosen(subs, subs) ==> forall t <- subs :: t.user == s.user && t.score.Some? ==> t.score.value <= s.score.value
    ensures multiset(Chosen(subs, subs))[s] == if Attains(subs, s) then multiset(subs)[s] else 0
    ensures s in subs && s.score.Some? && (forall t <- subs :: t.user == s.user && t.score.Some? ==> t.score.value <= s.score.value)
      ==> multiset(Chosen(subs, subs))[s] == multiset(subs)[s]
  {
    BestIsMaximum(subs, user);
    BestIsMaximum(subs, s.user);
    ChosenAre(subs, subs, s);
    if s in Chosen(subs, subs) { assert s in multiset(Chosen(subs, subs)); assert s in multiset(subs); }
    if Best(subs, user).Some? {
      var t :| t in subs && t.user == user && t.score == Best(subs, user);
      ChosenAre(subs, subs, t);
      assert t in multiset(subs);
      assert t in multiset(Chosen(subs, subs));
    }
    if c :| c in Chosen(subs, subs) && c.user == user {
      ChosenAre(subs, subs, c);
      assert c in multiset(Chosen(subs, subs));
      assert c in multiset(subs);
    }
  }

  // ----- order -----

  /** `_wns_sort_key`: a missing WNS is minus infinity. */
  predicate WnsAbove(a: Option<real>, b: Option<real>) {
    a.Some? && (b.None? || a.value > b.value)
  }

  /** Score descending, WNS descending with missing last, result order. */
  predicate Before(a: Row, b: Row) {
    || a.score > b.score
    || (a.score == b.score && (WnsAbove(a.wns, b.wns) || (a.wns == b.wns && a.pos < b.pos)))
  }

  ghost predicate SortedRows(rows: seq<Row>) { SortedBy(rows, Before) }

  /** The result set of the fallback query: positions as fetched, score
      descending. */
  ghost predicate Fetched(rows: seq<Row>) {
    && (forall i :: 0 <= i < |rows| ==> rows[i].pos == i)
    && (forall i, j :: 0 <= i < j < |rows| ==> rows[i].score >= rows[j].score)
  }

  /** Insert after every row whose WNS is not lower: one step of a stable
      descending sort. */
  function Insert(row: Row, rows: seq<Row>): seq<Row> {
    if rows == [] then [row]
    else if WnsAbove(row.wns, rows[|rows| - 1].wns)
    then Insert(row, rows[..|rows| - 1]) + [rows[|rows| - 1]]
    else rows + [row]
  }

  /** group_list.sort(key=_wns_sort_key, reverse=True): stable, descending. */
  function StableSort(group: seq<Row>): seq<Row> {
    if group == [] then [] else Insert(group[|group| - 1], StableSort(group[..|group| - 1]))
  }

  lemma {:induction false} InsertKeeps(row: Row, rows: seq<Row>)
    ensures multiset(Insert(row, rows)) == multiset(rows) + multiset{row}
  {
    if rows != [] {
      InsertKeeps(row, rows[..|rows| - 1]);
      assert rows == rows[..|rows| - 1] + [rows[|rows| - 1]];
    }
  }

  lemma {:induction false} InsertSorts(row: Row, rows: seq<Row>)
    requires SortedRows(rows)
    requires forall r <- rows :: r.score == row.score && r.pos < row.pos
    ensures SortedRows(Insert(row, rows))
  {
    if rows != [] {
      var n := |rows| - 1;
      if WnsAbove(row.wns, rows[n].wns) {
        InsertSorts(row, rows[..n]);
        InsertKeeps(row, rows[..n]);
        var ins := Insert(row, rows[..n]);
        forall i | 0 <= i < |ins| ensures Before(ins[i], rows[n]) {
          assert ins[i] in multiset(ins);
          assert ins[i] in rows[..n] || ins[i] == row;
          assert rows[n] in rows;
        }
      } else {
        forall i | 0 <= i < |rows| ensures Before(rows[i], row) {
          assert rows[i] in rows;
          if i < n { assert Before(rows[i], rows[n]); }
        }
      }
    }
  }

  /** Fetched rows of one score. */
  ghost predicate OneScore(group: seq<Row>) {
    forall i, j :: 0 <= i < j < |group| ==> group[i].score == group[j].score && group[i].pos < group[j].pos
  }

  lemma AllEarlier(init: seq<Row>, last: Row, sorted: seq<Row>)
    requires OneScore(init + [last]) && multiset(sorted) == multiset(init)
    ensures forall r <- sorted :: r.score == last.score && r.pos < last.pos
  {
    forall r | r in sorted ensures r.score == last.score && r.pos < last.pos {
      assert r in multiset(sorted);
      var i :| 0 <= i < |init| && init[i] == r;
      assert (init + [last])[i] == r && (init + [last])[|init|] == last;
    }
  }

  lemma {:induction false} StableSortSorts(group: seq<Row>)
    requires OneScore(group)
    ensures SortedRows(StableSort(group))
    ensures multiset(StableSort(group)) == multiset(group)
  {
    if group != [] {
      var init, last := group[..|group| - 1], group[|group| - 1];
      assert group == init + [last];
      StableSortSorts(init);
      AllEarlier(init, last, StableSort(init));
      InsertKeeps(last, StableSort(init));
      InsertSorts(last, StableSort(init));
    }
  }

  /** The rest of the group that begins at `i`: the first index with another score. */
  function GroupEnd(rows: seq<Row>, i: nat): (j: nat)
    requires i < |rows|
    ensures i < j <= |rows|
    ensures forall k :: i <= k < j ==> rows[k].score == rows[i].score
    ensures j < |rows| ==> rows[j].score != rows[i].score
    decreases |rows| - i
  {
    if i + 1 < |rows| && rows[i + 1].score == rows[i].score then GroupEnd(rows, i + 1) else i + 1
  }

  /** The leaderboard order of the SQLite path: groupby on the score, each group
      sorted by WNS, groups concatenated. */
  method SortFallback(rows: seq<Row>) returns (sorted: seq<Row>)
    requires Fetched(rows)
    ensures multiset(sorted) == multiset(rows)
    ensures SortedRows(sorted)
  {
    sorted := [];
    var i := 0;
    while i < |rows|
      invariant 0 <= i <= |rows|
      invariant multiset(sorted) == multiset(rows[..i])
      invariant SortedRows(sorted)
      invariant 0 < i < |rows| ==> rows[i].score < rows[i - 1].score
    {
      var j := GroupEnd(rows, i);
      var group := rows[i..j];
      GroupStep(rows, sorted, i, j);
      sorted := sorted + StableSort(group);
      i := j;
    }
    assert rows[..|rows|] == rows;
  }

  lemma GroupStep(rows: seq<Row>, sorted: seq<Row>, i: nat, j: nat)
    requires Fetched(rows) && i < |rows| && j == GroupEnd(rows, i)
    requires multiset(sorted) == multiset(rows[..i]) && SortedRows(sorted)
    requires 0 < i ==> rows[i].score < rows[i - 1].score
    ensures multiset(sorted + StableSort(rows[i..j])) == multiset(rows[..j])
    ensures SortedRows(sorted + StableSort(rows[i..j]))
    ensures j < |rows| ==> rows[j].score < rows[j - 1].score
  {
    GroupHasOneScore(rows, i, j);
    StableSortSorts(rows[i..j]);
    AppendGroup(rows, sorted, StableSort(rows[i..j]), i, j);
  }

  lemma GroupHasOneScore(rows: seq<Row>, i: nat, j: nat)
    requires Fetched(rows) && i < |rows| && j == GroupEnd(rows, i)
    ensures OneScore(rows[i..j])
    ensures j < |rows| ==> rows[j].score < rows[j - 1].score
  {
  }

  /** What is sorted comes before the next group. */
  lemma SortedThenGroup(rows: seq<Row>, a: Row, b: Row, i: nat, j: nat)
    requires Fetched(rows) && i < j <= |rows| && j == GroupEnd(rows, i)
    requires a in rows[..i] && b in rows[i..j] && (0 < i ==> rows[i].score < rows[i - 1].score)
    ensures Before(a, b)
  {
  }

  lemma AppendGroup(rows: seq<Row>, sorted: seq<Row>, group: seq<Row>, i: nat, j: nat)
    requires Fetched(rows) && i < j <= |rows| && j == GroupEnd(rows, i)
    requires multiset(sorted) == multiset(rows[..i]) && multiset(group) == multiset(rows[i..j])
    requires SortedRows(sorted) && SortedRows(group)
    requires 0 < i ==> rows[i].score < rows[i - 1].score
    ensures multiset(sorted + group) == multiset(rows[..j])
    ensures SortedRows(sorted + group)
  {
    assert rows[..j] == rows[..i] + rows[i..j];
    forall a, b | a in sorted && b in group ensures Before(a, b) {
      assert a in multiset(rows[..i]) && b in multiset(rows[i..j]);
      SortedThenGroup(rows, a, b, i, j);
    }
  }

  /** `Before` is a strict total order on rows with distinct positions, so the
      fallback's result is the only sorted permutation: the stable
      lexicographic sort. */
  lemma SortedIsUnique(a: seq<Row>, b: seq<Row>)
    requires multiset(a) == multiset(b) && SortedRows(a) && SortedRows(b)
    ensures a == b
  {
    SortedUnique(a, b, Before);
  }

  // ----- the PostgreSQL path -----

  /** What the ORDER BY clauses of PostgreSQL guarantee; ties come in any order. */
  ghost predicate OrderedByKeys(rows: seq<Row>) {
    forall i, j :: 0 <= i < j < |rows| ==>
      rows[i].score > rows[j].score
      || (rows[i].score == rows[j].score && !WnsAbove(rows[j].wns, rows[i].wns))
  }

  datatype Key = Key(score: real, wns: Option<real>)

  function Keys(rows: seq<Row>): seq<Key> {
    seq(|rows|, i requires 0 <= i < |rows| => Key(rows[i].score, rows[i].wns))
  }

  predicate KeyAtLeast(a: Key, b: Key) {
    a.score > b.score || (a.score == b.score && !WnsAbove(b.wns, a.wns))
  }

  lemma KeysOfDrop(rows: seq<Row>, i: nat)
    requires i < |rows|
    ensures Keys(Drop(rows, i)) == Drop(Keys(rows), i)
    ensures multiset(Keys(rows)) == multiset(Keys(Drop(rows, i))) + multiset{Keys(rows)[i]}
  {
    DropRemovesOne(Keys(rows), i);
  }

  lemma {:induction false} KeysOfPermutation(a: seq<Row>, b: seq<Row>)
    requires multiset(a) == multiset(b)
    ensures multiset(Keys(a)) == multiset(Keys(b))
    decreases |a|
  {
    SameLength(a, b);
    if a != [] {
      var i := FindIn(a, b, 0);
      KeysOfPermutation(Drop(a, 0), Drop(b, i));
      KeysOfDrop(a, 0);
      KeysOfDrop(b, i);
    }
  }

  /** Both paths show the same scores and slacks at the same ranks. */
  lemma PathsAgree(fallback: seq<Row>, postgres: seq<Row>)
    requires multiset(fallback) == multiset(postgres)
    requires SortedRows(fallback) && OrderedByKeys(postgres)
    ensures Keys(fallback) == Keys(postgres)
  {
    KeysOfPermutation(fallback, postgres);
    SortedUnique(Keys(fallback), Keys(postgres), KeyAtLeast);
  }

  // ----- ranks -----

  datatype Entry = Entry(rank: nat, score: real, wns: Option<real>, user: User, isSelf: bool)

  function Entries(rows: seq<Row>, caller: User): (es: seq<Entry>)
    ensures |es| == |rows|
  {
    seq(|rows|, i requires 0 <= i < |rows| =>
      Entry(i + 1, rows[i].score, rows[i].wns, rows[i].user, rows[i].user == caller))
  }

  /** The rows as the submissions they stand for. */
  function AsSubmissions(rows: seq<Row>): seq<Submission> {
    seq(|rows|, i requires 0 <= i < |rows| => Submission(rows[i].user, Some(rows[i].score), rows[i].wns))
  }

  /** The submissions that the entries show. */
  function Listed(es: seq<Entry>): seq<Submission> {
    seq(|es|, i requires 0 <= i < |es| => Submission(es[i].user, Some(es[i].score), es[i].wns))
  }

  /** The rows are what the query fetches for these submissions. */
  ghost predicate Answers(rows: seq<Row>, subs: seq<Submission>) {
    Fetched(rows) && multiset(AsSubmissions(rows)) == multiset(Chosen(subs, subs))
  }

  predicate Graded(subs: seq<Submission>, user: User) {
    exists s <- subs :: s.user == user && s.score.Some?
  }

  lemma AsSubmissionsOfDrop(rows: seq<Row>, i: nat)
    requires i < |rows|
    ensures AsSubmissions(Drop(rows, i)) == Drop(AsSubmissions(rows), i)
    ensures multiset(AsSubmissions(rows)) == multiset(AsSubmissions(Drop(rows, i))) + multiset{AsSubmissions(rows)[i]}
  {
    DropRemovesOne(AsSubmissions(rows), i);
  }

  lemma {:induction false} AsSubmissionsPermute(a: seq<Row>, b: seq<Row>)
    requires multiset(a) == multiset(b)
    ensures multiset(AsSubmissions(a)) == multiset(AsSubmissions(b))
    decreases |a|
  {
    SameLength(a, b);
    if a != [] {
      var i := FindIn(a, b, 0);
      AsSubmissionsPermute(Drop(a, 0), Drop(b, i));
      AsSubmissionsOfDrop(a, 0);
      AsSubmissionsOfDrop(b, i);
    }
  }

  /** A graded user has a row. */
  lemma UserHasRow(rows: seq<Row>, subs: seq<Submission>, user: User)
    requires multiset(AsSubmissions(rows)) == multiset(Chosen(subs, subs))
    ensures Graded(subs, user) <==> exists i :: 0 <= i < |rows| && rows[i].user == user
  {
    var chosen, shown := Chosen(subs, subs), AsSubmissions(rows);
    BestIsMaximum(subs, user);
    if Graded(subs, user) {
      var t :| t in subs && t.user == user && t.score == Best(subs, user);
      ChosenAre(subs, subs, t);
      assert t in multiset(subs);
      assert t in multiset(shown);
      var i :| 0 <= i < |shown| && shown[i] == t;
      assert rows[i].user == user;
    }
    if i :| 0 <= i < |rows| && rows[i].user == user {
      RowCarriesBest(rows, subs, i);
    }
  }

  /** A row carries its user's best score. */
  lemma RowCarriesBest(rows: seq<Row>, subs: seq<Submission>, i: nat)
    requires multiset(AsSubmissions(rows)) == multiset(Chosen(subs, subs)) && i < |rows|
    ensures Best(subs, rows[i].user) == Some(rows[i].score) && Graded(subs, rows[i].user)
  {
    var s := AsSubmissions(rows)[i];
    assert s in multiset(AsSubmissions(rows));
    ChosenAre(subs, subs, s);
    assert s in multiset(subs);
    assert s in subs && s.user == rows[i].user && s.score.Some?;
  }

  /** The answer of the SQLite path for these submissions: ranks 1..n over the
      stable lexicographic order of the fetched rows; every graded user is ranked
      and nobody else; every entry has its user's maximum. */
  method GetLeaderboard(ghost subs: seq<Submission>, rows: seq<Row>, caller: User) returns (es: seq<Entry>)
    requires Answers(rows, subs)
    ensures |es| == |Chosen(subs, subs)|
    ensures forall i :: 0 <= i < |es| ==> es[i].rank == i + 1 && (es[i].isSelf <==> es[i].user == caller)
    ensures forall i :: 0 <= i < |es| ==> Best(subs, es[i].user) == Some(es[i].score)
    ensures forall i, j :: 0 <= i < j < |es| ==>
      es[i].score > es[j].score || (es[i].score == es[j].score && !WnsAbove(es[j].wns, es[i].wns))
    ensures forall user :: Graded(subs, user) <==> exists i :: 0 <= i < |es| && es[i].user == user
    ensures exists sorted :: multiset(sorted) == multiset(rows) && SortedRows(sorted) && es == Entries(sorted, caller)
    ensures forall i, j :: 0 <= i < j < |es| ==> es[i].score >= es[j].score
    ensures forall i, j :: 0 <= i < j < |es| && es[i].score == es[j].score && es[j].wns.Some? ==>
      es[i].wns.Some? && es[i].wns.value >= es[j].wns.value
    ensures multiset(Listed(es)) == multiset(Chosen(subs, subs))
  {
    var sorted := SortFallback(rows);
    es := Entries(sorted, caller);
    EntriesAnswer(subs, rows, sorted, caller, es);
  }

  lemma EntriesAnswer(subs: seq<Submission>, rows: seq<Row>, sorted: seq<Row>, caller: User, es: seq<Entry>)
    requires Answers(rows, subs) && multiset(sorted) == multiset(rows) && SortedRows(sorted) && es == Entries(sorted, caller)
    ensures |es| == |Chosen(subs, subs)|
    ensures forall i :: 0 <= i < |es| ==> Best(subs, es[i].user) == Some(es[i].score)
    ensures forall user :: Graded(subs, user) <==> exists i :: 0 <= i < |es| && es[i].user == user
    ensures multiset(Listed(es)) == multiset(Chosen(subs, subs))
  {
    assert Listed(es) == AsSubmissions(sorted);
    AsSubmissionsPermute(sorted, rows);
    SameLength(AsSubmissions(sorted), Chosen(subs, subs));
    forall i | 0 <= i < |es| ensures Best(subs, es[i].user) == Some(es[i].score) { RowCarriesBest(sorted, subs, i); }
    forall user ensures Graded(subs, user) <==> exists i :: 0 <= i < |es| && es[i].user == user {
      UserHasRow(sorted, subs, user);
      if i :| 0 <= i < |sorted| && sorted[i].user == user { assert es[i].user == user; }
      if i :| 0 <= i < |es| && es[i].user == user { assert sorted[i].user == user; }
    }
  }

  /** Rank 1 carries the highest score anyone was graded with. */
  lemma FirstRankIsTopScore(subs: seq<Submission>, sorted: seq<Row>, t: Submission)
    requires multiset(AsSubmissions(sorted)) == multiset(Chosen(subs, subs)) && SortedRows(sorted)
    requires t in subs && t.score.Some?
    ensures sorted != [] && sorted[0].score >= t.score.value
  {
    UserHasRow(sorted, subs, t.user);
    BestIsMaximum(subs, t.user);
    var i :| 0 <= i < |sorted| && sorted[i].user == t.user;
    RowCarriesBest(sorted, subs, i);
    if i > 0 { assert Before(sorted[0], sorted[i]); }
  }
}
