/** The per-user chat log: each row belongs to one user and one category from a
    fixed allow-list. Adding appends a row; listing returns the caller's newest rows
    of one category, oldest of them first. The log table is a sequence of rows in
    insertion order, whose ids the database's sequence makes strictly increasing. */
module Chat {
  import opened Results
  import Security

  /** The categories a log may be filed under. */
  const Allowed: set<string> := {"infra", "weather", "energy", "fx", "security", "general"}
  /** How many rows a listing returns when the caller gives no limit. */
  const DefaultLimit: int := 200
  /** The largest limit a caller may ask for. */
  const MaxLimit: int := 2000

  const InvalidCategory: Failure := HttpError(400, "invalid category")

  /** A row of the log table. */
  datatype LogRow = LogRow(id: int, userId: string, category: string, question: string, answer: string, createdAt: Option<int>)

  /** A row as a listing shows it: without its owner. */
  datatype Item = Item(id: int, category: string, question: string, answer: string, createdAt: Option<int>)

  datatype AddLogReq = AddLogReq(category: string, question: string, answer: string)

  function ToItem(r: LogRow): Item {
    Item(r.id, r.category, r.question, r.answer, r.createdAt)
  }

  function Items(rows: seq<LogRow>): seq<Item> {
    seq(|rows|, i requires 0 <= i < |rows| => ToItem(rows[i]))
  }

  function Min(a: int, b: int): int {
    if a <= b then a else b
  }

  ghost predicate Ascending(rows: seq<LogRow>) {
    forall i, j | 0 <= i < j < |rows| :: rows[i].id < rows[j].id
  }

  ghost predicate Descending(rows: seq<LogRow>) {
    forall i, j | 0 <= i < j < |rows| :: rows[i].id > rows[j].id
  }

  predicate Matches(r: LogRow, userId: string, category: string) {
    r.userId == userId && r.category == category
  }

  /** The rows of `userId` in `category`, in store order. */
  function Matching(rows: seq<LogRow>, userId: string, category: string): seq<LogRow> {
    if rows == [] then
      []
    else
      var last := rows[|rows| - 1];
      Matching(rows[..|rows| - 1], userId, category) + (if Matches(last, userId, category) then [last] else [])
  }

  /** The matching rows are exactly the store's rows of that owner and category. */
  lemma {:induction false} MatchingMembers(rows: seq<LogRow>, userId: string, category: string)
    ensures var m := Matching(rows, userId, category);
      && |m| <= |rows|
      && (forall r | r in m :: r in rows && Matches(r, userId, category))
      && (forall r | r in rows && Matches(r, userId, category) :: r in m)
  {
    if rows != [] {
      var init := rows[..|rows| - 1];
      MatchingMembers(init, userId, category);
      assert rows == init + [rows[|rows| - 1]];
    }
  }

  /** Keeping some rows keeps their order: the matching rows of an ascending store
      ascend. */
  lemma {:induction false} MatchingAscending(rows: seq<LogRow>, userId: string, category: string)
    requires Ascending(rows)
    ensures Ascending(Matching(rows, userId, category))
  {
    if rows != [] {
      var init, last := rows[..|rows| - 1], rows[|rows| - 1];
      var m := Matching(init, userId, category);
      MatchingAscending(init, userId, category);
      MatchingMembers(init, userId, category);
      forall i | 0 <= i < |m| ensures m[i].id < last.id {
        assert m[i] in m;
        var k :| 0 <= k < |init| && init[k] == m[i];
        assert rows[k] == m[i];
      }
    }
  }

  /** Appending a row adds it to the matching rows exactly when it matches. */
  lemma MatchingAppend(rows: seq<LogRow>, row: LogRow, userId: string, category: string)
    ensures Matching(rows + [row], userId, category)
         == Matching(rows, userId, category) + (if Matches(row, userId, category) then [row] else [])
  {
    assert (rows + [row])[..|rows|] == rows;
  }

  function Reversed(s: seq<LogRow>): (r: seq<LogRow>) {
    seq(|s|, i requires 0 <= i < |s| => s[|s| - 1 - i])
  }

  /** The reference meaning of a listing: the last `limit` matching rows, in order. */
  function Newest(m: seq<LogRow>, limit: nat): seq<LogRow> {
    m[|m| - Min(limit, |m|)..]
  }

  /** The database query: the caller's rows in the category ordered by id descending,
      cut at `limit`. Because the store's ids ascend in store order, ordering by id
      descending is the reverse of the matching rows. */
  function Query(rows: seq<LogRow>, userId: string, category: string, limit: nat): (q: seq<LogRow>)
    ensures |q| == Min(limit, |Matching(rows, userId, category)|)
    ensures forall k | 0 <= k < |q| :: q[k] in rows && Matches(q[k], userId, category)
  {
    MatchingMembers(rows, userId, category);
    var desc := Reversed(Matching(rows, userId, category));
    desc[..Min(limit, |desc|)]
  }

  /** The query returns the newest matching rows newest first: it is the reverse of
      the listing's reference meaning. */
  lemma QueryIsNewestFirst(rows: seq<LogRow>, userId: string, category: string, limit: nat)
    ensures Query(rows, userId, category, limit) == Reversed(Newest(Matching(rows, userId, category), limit))
  {
    var m := Matching(rows, userId, category);
    var q := Query(rows, userId, category, limit);
    var n := Newest(m, limit);
    assert |q| == |n|;
    forall k | 0 <= k < |q| ensures q[k] == Reversed(n)[k] {
    }
  }

  /** On a store with ascending ids the query's ids strictly descend, as the
      database's descending order by id requires. */
  lemma QueryDescending(rows: seq<LogRow>, userId: string, category: string, limit: nat)
    requires Ascending(rows)
    ensures Descending(Query(rows, userId, category, limit))
  {
    var m := Matching(rows, userId, category);
    MatchingAscending(rows, userId, category);
    QueryIsNewestFirst(rows, userId, category, limit);
    var n := Newest(m, limit);
    var q := Reversed(n);
    var cut := |m| - Min(limit, |m|);
    forall i, j | 0 <= i < j < |q| ensures q[i].id > q[j].id {
      assert q[i] == m[cut + |n| - 1 - i] && q[j] == m[cut + |n| - 1 - j];
    }
  }

  /** The rows a listing shows: at most `limit`, all the caller's and in the category,
      ascending by id, and every matching row left out is older than every row shown. */
  lemma NewestAreHighest(rows: seq<LogRow>, userId: string, category: string, limit: nat)
    requires Ascending(rows)
    ensures var m := Matching(rows, userId, category);
      var n := Newest(m, limit);
      && |n| == Min(limit, |m|)
      && Ascending(n)
      && (forall r | r in n :: r in rows && Matches(r, userId, category))
      && (forall r | r in rows && Matches(r, userId, category) && r !in n ::
            forall j | 0 <= j < |n| :: r.id < n[j].id)
  {
    var m := Matching(rows, userId, category);
    var n := Newest(m, limit);
    var cut := |m| - Min(limit, |m|);
    MatchingAscending(rows, userId, category);
    MatchingMembers(rows, userId, category);
    assert forall j | 0 <= j < |n| :: n[j] == m[cut + j];
    forall r | r in rows && Matches(r, userId, category) && r !in n
      ensures forall j | 0 <= j < |n| :: r.id < n[j].id
    {
      var k :| 0 <= k < |m| && m[k] == r;
      assert k < cut;
    }
  }

  /** Undoing a reversal: items read back to front from the reverse of `n` are the
      items of `n`. */
  lemma UndoReverse(q: seq<LogRow>, n: seq<LogRow>, shown: seq<Item>)
    requires q == Reversed(n)
    requires |shown| == |q| && forall k | 0 <= k < |q| :: shown[k] == ToItem(q[|q| - 1 - k])
    ensures shown == Items(n)
  {
    forall k | 0 <= k < |n| ensures shown[k] == Items(n)[k] {
      assert q[|q| - 1 - k] == n[k];
    }
  }

  /** Reversing the query's answer gives the listing's reference meaning. */
  lemma ReversedQuery(rows: seq<LogRow>, userId: string, category: string, limit: nat, shown: seq<Item>)
    requires var q := Query(rows, userId, category, limit);
      |shown| == |q| && forall k | 0 <= k < |q| :: shown[k] == ToItem(q[|q| - 1 - k])
    ensures shown == Items(Newest(Matching(rows, userId, category), limit))
  {
    QueryIsNewestFirst(rows, userId, category, limit);
    UndoReverse(Query(rows, userId, category, limit), Newest(Matching(rows, userId, category), limit), shown);
  }

  /** The listing as the caller sees it: at most `limit` items, all in the category,
      ascending by id. */
  lemma ListingShape(rows: seq<LogRow>, userId: string, category: string, limit: nat)
    requires Ascending(rows)
    ensures var items := Items(Newest(Matching(rows, userId, category), limit));
      && |items| <= limit
      && (forall i | 0 <= i < |items| :: items[i].category == category)
      && (forall i, j | 0 <= i < j < |items| :: items[i].id < items[j].id)
  {
    NewestAreHighest(rows, userId, category, limit);
    var n := Newest(Matching(rows, userId, category), limit);
    assert forall i | 0 <= i < |n| :: n[i] in n;
  }

  /** A row just added to the store is the last item of the next listing of its
      owner and category; a row of another owner or category leaves that listing as
      it was. */
  lemma AddedRowIsNewest(rows: seq<LogRow>, row: LogRow, userId: string, category: string, limit: nat)
    requires 1 <= limit
    ensures var n := Newest(Matching(rows + [row], userId, category), limit);
      Matches(row, userId, category) ==> |n| >= 1 && n[|n| - 1] == row
    ensures !Matches(row, userId, category) ==>
      Newest(Matching(rows + [row], userId, category), limit) == Newest(Matching(rows, userId, category), limit)
  {
    MatchingAppend(rows, row, userId, category);
    if !Matches(row, userId, category) {
      assert Matching(rows, userId, category) + [] == Matching(rows, userId, category);
    }
  }

  /** Python's `list.reverse()`: the array, reversed in place. */
  method ReverseInPlace(a: array<Item>)
    modifies a
    ensures forall k | 0 <= k < a.Length :: a[k] == old(a[a.Length - 1 - k])
  {
    var n := a.Length;
    var i := 0;
    while i < n / 2
      invariant 0 <= i <= n / 2
      invariant forall k | 0 <= k < i :: a[k] == old(a[n - 1 - k]) && a[n - 1 - k] == old(a[k])
      invariant forall k | i <= k < n - i :: a[k] == old(a[k])
    {
      a[i], a[n - 1 - i] := a[n - 1 - i], a[i];
      i := i + 1;
    }
  }

  /** The log table, appended to in place. */
  class LogStore {
    var rows: seq<LogRow>
    /** The id the database's sequence hands out next. */
    var nextId: int

    ghost predicate Valid()
      reads this
    {
      && Ascending(rows)
      && forall i | 0 <= i < |rows| :: rows[i].id < nextId
    }

    constructor ()
      ensures Valid() && rows == [] && nextId == 1
    {
      rows := [];
      nextId := 1;
    }

    /** Files a question and its answer under the caller and a category. `dbNow` is
        the database clock that fills `created_at`. */
    method AddLog(cur: Security.Identity, req: AddLogReq, dbNow: int) returns (r: Result<()>)
      requires Valid()
      modifies this
      ensures Valid()
      ensures req.category !in Allowed ==>
        r == Err(InvalidCategory) && rows == old(rows) && nextId == old(nextId)
      ensures req.category in Allowed ==>
        && r == Ok(())
        && rows == old(rows) + [LogRow(old(nextId), cur.userId, req.category, req.question, req.answer, Some(dbNow))]
        && nextId == old(nextId) + 1
    {
      if req.category !in Allowed {
        return Err(InvalidCategory);
      }
      rows := rows + [LogRow(nextId, cur.userId, req.category, req.question, req.answer, Some(dbNow))];
      nextId := nextId + 1;
      return Ok(());
    }

    /** The caller's newest `limit` rows in `category`, returned oldest first: the
        query hands them over newest first and the list is then reversed in place.
        Without a `limit` the caller gets `DefaultLimit` rows at most.
        The store is only read. */
    method ListLogs(cur: Security.Identity, category: string, limit: int := DefaultLimit) returns (r: Result<seq<Item>>)
      requires Valid()
      requires 1 <= limit <= MaxLimit
      ensures category !in Allowed ==> r == Err(InvalidCategory)
      ensures category in Allowed ==> r == Ok(Items(Newest(Matching(rows, cur.userId, category), limit)))
      ensures r.Ok? ==>
        && |r.value| <= limit
        && (forall i | 0 <= i < |r.value| :: r.value[i].category == category)
        && (forall i, j | 0 <= i < j < |r.value| :: r.value[i].id < r.value[j].id)
    {
      if category !in Allowed {
        return Err(InvalidCategory);
      }
      var found := Query(rows, cur.userId, category, limit);
      var n := |found|;
      var items := new Item[n](k requires 0 <= k < n => ToItem(found[k]));
      ReverseInPlace(items);
      assert forall k | 0 <= k < n :: items[k] == ToItem(found[n - 1 - k]);
      ReversedQuery(rows, cur.userId, category, limit, items[..]);
      ListingShape(rows, cur.userId, category, limit);
      r := Ok(items[..]);
    }
  }
}
