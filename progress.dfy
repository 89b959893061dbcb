/** The completion count and rank ladder of the progress endpoint (`get_progress`). */
module Progress {

  import opened Documents

  /** `i.get("completed")` is truthy: the field is present and truthy. */
  predicate IsCompleted(item: Doc) {
    "completed" in item && Truthy(item["completed"])
  }

  /** `sum(1 for i in items if i.get("completed"))`. */
  function CompletedCount(items: seq<Doc>): (n: nat)
    ensures n <= |items|
    ensures n == |items| <==> forall i :: 0 <= i < |items| ==> IsCompleted(items[i])
    ensures n == 0 <==> forall i :: 0 <= i < |items| ==> !IsCompleted(items[i])
    decreases |items|
  {
    if items == [] then 0
    else (if IsCompleted(items[0]) then 1 else 0) + CompletedCount(items[1..])
  }

  /** The indices of the completed items. */
  function CompletedIndices(items: seq<Doc>): (indices: set<nat>) {
    set i: nat | i < |items| && IsCompleted(items[i])
  }

  /** The count is the number of positions holding a completed item. */
  lemma {:induction false} CompletedCountIsSize(items: seq<Doc>)
    ensures CompletedCount(items) == |CompletedIndices(items)|
    decreases |items|
  {
    if items != [] {
      var n := |items| - 1;
      var init, last := items[..n], items[n];
      assert init + [last] == items;
      CompletedCountIsSize(init);
      CountSnoc(init, last);
      IndicesSnoc(init, last);
      assert n !in CompletedIndices(init);
    }
  }

  lemma CountSnoc(init: seq<Doc>, last: Doc)
    ensures CompletedCount(init + [last]) == CompletedCount(init) + (if IsCompleted(last) then 1 else 0)
  {
    CompletedCountAppend(init, [last]);
    assert [last][1..] == [];
  }

  lemma IndicesSnoc(init: seq<Doc>, last: Doc)
    ensures CompletedIndices(init + [last]) ==
      CompletedIndices(init) + (if IsCompleted(last) then {|init|} else {})
  {
    var items := init + [last];
    var extra: set<nat> := if IsCompleted(last) then {|init|} else {};
    forall i: nat ensures i in CompletedIndices(items) <==> i in CompletedIndices(init) + extra {
      if i < |init| {
        assert items[i] == init[i];
      }
    }
  }

  /** Entries are counted independently: the count of two lists is the sum of their counts. */
  lemma {:induction false} CompletedCountAppend(a: seq<Doc>, b: seq<Doc>)
    ensures CompletedCount(a + b) == CompletedCount(a) + CompletedCount(b)
    decreases |a|
  {
    if a == [] {
      assert a + b == b;
    } else {
      assert (a + b)[1..] == a[1..] + b;
      CompletedCountAppend(a[1..], b);
    }
  }

  /** The five ranks, lowest first. */
  datatype Tier = Newbie | Bronze | Silver | Gold | Platinum

  function Ordinal(t: Tier): (n: nat) {
    match t
    case Newbie => 0
    case Bronze => 1
    case Silver => 2
    case Gold => 3
    case Platinum => 4
  }

  /** The inclusive lower bound of completed lessons for each rank. */
  function Threshold(t: Tier): (n: nat) {
    match t
    case Newbie => 0
    case Bronze => 3
    case Silver => 10
    case Gold => 25
    case Platinum => 50
  }

  /** The label main.py returns for each rank. */
  function Label(t: Tier): (name: string) {
    match t
    case Newbie => "\U{1F393} Newbie"
    case Bronze => "\U{1F949} Bronze"
    case Silver => "\U{1F948} Silver"
    case Gold => "\U{1F947} Gold"
    case Platinum => "\U{1F3C6} Platinum"
  }

  /**
   * The if/elif ladder, evaluated highest first. The result is the highest rank
   * whose lower bound the count reaches.
   */
  function RankTier(count: nat): (t: Tier)
    ensures Threshold(t) <= count
    ensures forall u :: Threshold(u) <= count ==> Ordinal(u) <= Ordinal(t)
  {
    if count >= 50 then Platinum
    else if count >= 25 then Gold
    else if count >= 10 then Silver
    else if count >= 3 then Bronze
    else Newbie
  }

  /**
   * The rank label of a completed count: a label is returned exactly when
   * its rank is the highest one the count reaches.
   */
  function Rank(count: nat): (r: string)
    ensures forall t :: r == Label(t) <==>
      (Threshold(t) <= count && forall u :: Threshold(u) <= count ==> Ordinal(u) <= Ordinal(t))
  {
    Label(RankTier(count))
  }

  /** More completed lessons never lower the rank. */
  lemma RankMonotone(c1: nat, c2: nat)
    requires c1 <= c2
    ensures Ordinal(RankTier(c1)) <= Ordinal(RankTier(c2))
  {
  }

  /** Distinct ranks have distinct labels, so the label identifies the rank. */
  lemma LabelInjective(t: Tier, u: Tier)
    requires Label(t) == Label(u)
    ensures t == u
  {
  }

  /** The ladder at each boundary. */
  lemma RankBoundaries()
    ensures Rank(2) == "\U{1F393} Newbie" && Rank(3) == "\U{1F949} Bronze"
    ensures Rank(9) == "\U{1F949} Bronze" && Rank(10) == "\U{1F948} Silver"
    ensures Rank(24) == "\U{1F948} Silver" && Rank(25) == "\U{1F947} Gold"
    ensures Rank(49) == "\U{1F947} Gold" && Rank(50) == "\U{1F3C6} Platinum"
  {
  }

  /** The body `get_progress` returns. */
  datatype Report = Report(items: seq<Doc>, completed: nat, rank: string)

  /**
   * `get_progress` after its store read: the fetched entries serialized in
   * order, the count of completed ones and the rank of that count.
   */
  function GetProgress(items: seq<Doc>, f: Formatting): (r: Report)
    ensures |r.items| == |items|
    ensures forall i :: 0 <= i < |items| ==> r.items[i] == Serialized(items[i], f)
    ensures r.completed == |CompletedIndices(items)| && r.completed <= |items|
    ensures r.rank == Rank(r.completed)
  {
    CompletedCountIsSize(items);
    Report(seq(|items|, i requires 0 <= i < |items| => Serialized(items[i], f)),
           CompletedCount(items), Rank(CompletedCount(items)))
  }

  /**
   * Progress is append-only: one more completed entry raises the count by
   * one, and an entry not completed leaves it as it was.
   */
  lemma ProgressAppend(items: seq<Doc>, entry: Doc, f: Formatting)
    ensures GetProgress(items + [entry], f).completed ==
            GetProgress(items, f).completed + (if IsCompleted(entry) then 1 else 0)
  {
    CompletedCountIsSize(items);
    CompletedCountIsSize(items + [entry]);
    CompletedCountAppend(items, [entry]);
    assert [entry][1..] == [];
  }
}
