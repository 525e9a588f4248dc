/**
 The cursor over the rows of an executed statement, and fetching from it in chunks. The statement is
 an abstract stream: its rows, and then the end of the data or an error.
 */
module ResultCursor {
  import opened Wrappers

  datatype End = Done | Failed

  datatype Step = Row | Ended(end: End)

  // A prepared statement. Stepping it after it has ended runs it again from the start, which is
  // counted as a late step.
  class SqliteStatement<R> {
    const rows: seq<R>
    const end: End
    var served: nat
    var ended: bool
    var lateSteps: nat

    constructor (rows: seq<R>, end: End)
      ensures this.rows == rows && this.end == end && served == 0 && !ended && lateSteps == 0
    {
      this.rows, this.end := rows, end;
      served, ended, lateSteps := 0, false, 0;
    }

    method Step() returns (res: Step)
      requires served <= |rows|
      modifies this
      ensures var before := if old(ended) then 0 else old(served);
              && lateSteps == old(lateSteps) + (if old(ended) then 1 else 0)
              && (if before < |rows| then
                    res == Row && served == before + 1 && !ended
                  else
                    res == Ended(end) && served == before && ended)
    {
      if ended {
        served, ended, lateSteps := 0, false, lateSteps + 1;
      }
      if served < |rows| {
        served := served + 1;
        return Row;
      }
      ended := true;
      return Ended(end);
    }

    // The row the statement stands on.
    function Current(): R
      requires 0 < served <= |rows| && !ended
      reads this
    {
      rows[served - 1]
    }
  }

  class ResultData<R> {
    const stmt: SqliteStatement<R>
    var rowIndex: nat
    var hasMore: bool
    var isSuccess: bool

    // The statement was never stepped past its end; there is more exactly while it stands on the
    // row numbered `rowIndex`; and success is known to be lost only at an end that is an error.
    ghost predicate Valid()
      reads this, stmt
    {
      && stmt.lateSteps == 0
      && (hasMore <==> !stmt.ended)
      && (if hasMore then
            rowIndex < |stmt.rows| && stmt.served == rowIndex + 1 && isSuccess
          else
            rowIndex == stmt.served == |stmt.rows| && (isSuccess <==> stmt.end == Done))
    }

    constructor (stmt: SqliteStatement<R>)
      requires stmt.served == 0 && !stmt.ended && stmt.lateSteps == 0
      modifies stmt
      ensures this.stmt == stmt && Valid() && rowIndex == 0
    {
      this.stmt := stmt;
      new;
      Next();
      rowIndex := 0;
    }

    method Next()
      requires stmt.served <= |stmt.rows|
      modifies this`hasMore, this`isSuccess, stmt
      ensures stmt.lateSteps == old(stmt.lateSteps) + (if old(stmt.ended) then 1 else 0)
      ensures !old(stmt.ended) ==>
                && hasMore == !stmt.ended == (old(stmt.served) < |stmt.rows|)
                && stmt.served == old(stmt.served) + (if hasMore then 1 else 0)
                && (isSuccess <==> hasMore || stmt.end == Done)
    {
      var res := stmt.Step();
      match res {
        case Row =>
          hasMore := true;
          isSuccess := true;
        case Ended(Done) =>
          hasMore := false;
          isSuccess := true;
        case Ended(Failed) =>
          hasMore := false;
          isSuccess := false;
      }
    }
  }

  // ---------- One fetch ----------

  datatype ReadError = Unreadable

  // Reads the row under the cursor into an item, unless that throws.
  type Reader<!R, Item> = R -> Option<Item>

  // A fetch that moved the cursor between two rows, and what it returned.
  datatype Chunk<Item> = Chunk(from: nat, to: nat, result: Result<seq<Item>, ReadError>)

  ghost function ReadUpTo<R, Item>(rows: seq<R>, i: nat, stop: nat, reader: Reader<R, Item>): (c: Chunk<Item>)
    requires i <= stop <= |rows|
    ensures c.from == i <= c.to <= stop
    decreases stop - i
  {
    if i == stop then
      Chunk(i, i, Ok([]))
    else
      match reader(rows[i])
      case None => Chunk(i, i, Threw(Unreadable))
      case Some(item) =>
        var rest := ReadUpTo(rows, i + 1, stop, reader);
        Chunk(i, rest.to, if rest.result.Ok? then Ok([item] + rest.result.value) else rest.result)
  }

  // How many of `left` rows a count asks for; a negative count asks for all.
  ghost function Wanted(left: nat, count: int): (n: nat)
    ensures n <= left
  {
    if count < 0 || count > left then left else count
  }

  ghost function Fetch<R, Item>(rows: seq<R>, i: nat, count: int, reader: Reader<R, Item>): Chunk<Item>
    requires i <= |rows|
  {
    ReadUpTo(rows, i, i + Wanted(|rows| - i, count), reader)
  }

  // A fetch seen from its middle: `collected` is what it has read so far.
  ghost predicate Continues<R, Item>(rows: seq<R>, i: nat, stop: nat, reader: Reader<R, Item>, collected: seq<Item>,
                                     whole: Chunk<Item>)
    requires i <= stop <= |rows|
  {
    var rest := ReadUpTo(rows, i, stop, reader);
    && whole.to == rest.to
    && whole.result == if rest.result.Ok? then Ok(collected + rest.result.value) else rest.result
  }

  lemma Carry<R, Item>(rows: seq<R>, i: nat, stop: nat, reader: Reader<R, Item>, collected: seq<Item>, item: Item,
                       whole: Chunk<Item>)
    requires i < stop <= |rows| && reader(rows[i]) == Some(item)
    requires Continues(rows, i, stop, reader, collected, whole)
    ensures Continues(rows, i + 1, stop, reader, collected + [item], whole)
  {
    var rest := ReadUpTo(rows, i + 1, stop, reader);
    if rest.result.Ok? {
      assert collected + ([item] + rest.result.value) == collected + [item] + rest.result.value;
    }
  }

  // A row that cannot be read makes the fetch throw; what it had collected is lost, and the cursor
  // stays on that row.
  method ReadRowsAsCollection<R, Item>(dbData: ResultData<R>, count: int, reader: Reader<R, Item>)
    returns (r: Result<seq<Item>, ReadError>)
    requires dbData.Valid()
    modifies dbData, dbData.stmt
    ensures dbData.Valid()
    ensures Chunk(old(dbData.rowIndex), dbData.rowIndex, r) ==
            Fetch(dbData.stmt.rows, old(dbData.rowIndex), count, reader)
  {
    var collection := [];
    ghost var rows, start := dbData.stmt.rows, dbData.rowIndex;
    ghost var stop := start + Wanted(|rows| - start, count);
    ghost var whole := ReadUpTo(rows, start, stop, reader);
    assert whole.result.Ok? ==> [] + whole.result.value == whole.result.value;
    if count != 0 {
      var counter := 0;
      while dbData.hasMore
        invariant dbData.Valid() && start <= dbData.rowIndex <= stop
        invariant count > 0 ==> counter == dbData.rowIndex - start < count
        invariant Continues(rows, dbData.rowIndex, stop, reader, collection, whole)
        decreases |rows| - dbData.rowIndex
      {
        var item := reader(dbData.stmt.Current());
        if item.None? {
          return Threw(Unreadable);
        }
        Carry(rows, dbData.rowIndex, stop, reader, collection, item.value, whole);
        collection := collection + [item.value];
        dbData.rowIndex := dbData.rowIndex + 1;
        dbData.Next();
        if count > 0 {
          counter := counter + 1;
          if counter == count {
            break;
          }
        }
      }
    }
    assert collection + [] == collection;
    return Ok(collection);
  }

  // ---------- What a fetch returns ----------

  // Reading stops at the end of what is wanted, which is success, or at the first row that cannot be
  // read. On success there is one item for each row, in order.
  lemma {:induction false} UpToReads<R, Item>(rows: seq<R>, i: nat, stop: nat, reader: Reader<R, Item>)
    requires i <= stop <= |rows|
    ensures var c := ReadUpTo(rows, i, stop, reader);
            && (c.result.Ok? <==> c.to == stop)
            && (c.result.Threw? ==> reader(rows[c.to]).None?)
            && (forall k :: i <= k < c.to ==> reader(rows[k]).Some?)
            && (c.result.Ok? ==> |c.result.value| == stop - i)
            && (c.result.Ok? ==> forall k :: 0 <= k < stop - i ==> reader(rows[i + k]) == Some(c.result.value[k]))
    decreases stop - i
  {
    if i < stop && reader(rows[i]).Some? {
      UpToReads(rows, i + 1, stop, reader);
      var c, rest := ReadUpTo(rows, i, stop, reader), ReadUpTo(rows, i + 1, stop, reader);
      if c.result.Ok? {
        forall k | 0 <= k < stop - i ensures reader(rows[i + k]) == Some(c.result.value[k]) {
          if k > 0 {
            assert reader(rows[i + 1 + (k - 1)]) == Some(rest.result.value[k - 1]);
          }
        }
      }
    }
  }

  // A positive count takes as many rows as there are up to that count, zero takes none, and a
  // negative count takes all; a row that cannot be read makes the whole fetch throw, with the cursor
  // left on that row.
  lemma FetchReads<R, Item>(rows: seq<R>, i: nat, count: int, reader: Reader<R, Item>)
    requires i <= |rows|
    ensures var c := Fetch(rows, i, count, reader);
            var stop := if 0 <= count < |rows| - i then i + count else |rows|;
            && i == c.from <= c.to <= stop
            && (c.result.Ok? <==> forall k :: i <= k < stop ==> reader(rows[k]).Some?)
            && (c.result.Ok? ==>
                  && c.to == stop && |c.result.value| == stop - i
                  && forall k :: 0 <= k < stop - i ==> reader(rows[i + k]) == Some(c.result.value[k]))
            && (c.result.Threw? ==> c.to < stop && reader(rows[c.to]).None?)
            && (forall k :: i <= k < c.to ==> reader(rows[k]).Some?)
  {
    UpToReads(rows, i, i + Wanted(|rows| - i, count), reader);
  }

  // A fetch after one that threw reads the same row again: it throws on the spot if it cannot read
  // it either, and otherwise that row's item is the first it returns.
  lemma ThrownRowIsReadAgain<R, Item>(rows: seq<R>, i: nat, count: int, reader: Reader<R, Item>, again: int,
                                      reader': Reader<R, Item>)
    requires i <= |rows| && again != 0 && Fetch(rows, i, count, reader).result.Threw?
    ensures var t := Fetch(rows, i, count, reader).to;
            var c := Fetch(rows, t, again, reader');
            && t < |rows|
            && (reader'(rows[t]).None? ==> c == Chunk(t, t, Threw(Unreadable)))
            && (reader'(rows[t]).Some? && c.result.Ok? ==> [reader'(rows[t]).value] <= c.result.value)
  {
    UpToReads(rows, i, i + Wanted(|rows| - i, count), reader);
  }

  // ---------- Runs of fetches ----------

  datatype Request<!R, Item> = Request(count: int, reader: Reader<R, Item>)

  // The chunks of one fetch after another, whatever the fetches return.
  ghost function Run<R, Item>(rows: seq<R>, i: nat, requests: seq<Request<R, Item>>): seq<Chunk<Item>>
    requires i <= |rows|
    decreases |requests|
  {
    if |requests| == 0 then
      []
    else
      var c := Fetch(rows, i, requests[0].count, requests[0].reader);
      [c] + Run(rows, c.to, requests[1..])
  }

  ghost function Reached<Item>(i: nat, chunks: seq<Chunk<Item>>): nat {
    if |chunks| == 0 then i else chunks[|chunks| - 1].to
  }

  // Fetches one request after another; the cursor stays valid throughout, so the statement is never
  // stepped past its end.
  method FetchInTurn<R, Item>(dbData: ResultData<R>, requests: seq<Request<R, Item>>)
    returns (results: seq<Result<seq<Item>, ReadError>>)
    requires dbData.Valid()
    modifies dbData, dbData.stmt
    ensures dbData.Valid() && |results| == |requests|
    ensures var chunks := Run(dbData.stmt.rows, old(dbData.rowIndex), requests);
            && |chunks| == |requests| && dbData.rowIndex == Reached(old(dbData.rowIndex), chunks)
            && forall k :: 0 <= k < |requests| ==> chunks[k].result == results[k]
  {
    results := [];
    ghost var rows, start := dbData.stmt.rows, dbData.rowIndex;
    ghost var whole, chunks := Run(rows, start, requests), [];
    var i := 0;
    while i < |requests|
      invariant 0 <= i <= |requests| && dbData.Valid()
      invariant whole == chunks + Run(rows, dbData.rowIndex, requests[i..])
      invariant |results| == |chunks| == i && dbData.rowIndex == Reached(start, chunks)
      invariant forall k :: 0 <= k < i ==> chunks[k].result == results[k]
    {
      ghost var chunk := Fetch(rows, dbData.rowIndex, requests[i].count, requests[i].reader);
      var result := ReadRowsAsCollection(dbData, requests[i].count, requests[i].reader);
      results := results + [result];
      Grow(chunks, [chunk], Run(rows, chunk.to, requests[i + 1..]));
      assert requests[i..][1..] == requests[i + 1..];
      chunks := chunks + [chunk];
      i := i + 1;
    }
  }

  // Each fetch starts where the one before it stopped: no row is read into two results.
  lemma {:induction false} ChunksTile<R, Item>(rows: seq<R>, i: nat, requests: seq<Request<R, Item>>, k: nat)
    requires i <= |rows| && k < |requests|
    ensures var chunks := Run(rows, i, requests);
            && |chunks| == |requests|
            && chunks[k].from == (if k == 0 then i else chunks[k - 1].to) <= chunks[k].to <= |rows|
    decreases |requests|
  {
    var c := Fetch(rows, i, requests[0].count, requests[0].reader);
    if k > 0 {
      ChunksTile(rows, c.to, requests[1..], k - 1);
    } else if |requests| > 1 {
      ChunksTile(rows, c.to, requests[1..], 0);
    }
  }

  // The count of one fetch that does the work of two.
  ghost function Both(a: int, b: int): int {
    if a < 0 || b < 0 then -1 else a + b
  }

  ghost function InAll(counts: seq<int>): int {
    if |counts| == 0 then 0 else Both(counts[0], InAll(counts[1..]))
  }

  ghost function Requests<R, Item>(counts: seq<int>, reader: Reader<R, Item>): seq<Request<R, Item>> {
    seq(|counts|, k requires 0 <= k < |counts| => Request(counts[k], reader))
  }

  ghost function Flatten<Item>(chunks: seq<Chunk<Item>>): Result<seq<Item>, ReadError> {
    if |chunks| == 0 then
      Ok([])
    else if chunks[0].result.Threw? then
      chunks[0].result
    else
      match Flatten(chunks[1..])
      case Ok(items) => Ok(chunks[0].result.value + items)
      case Threw(e) => Threw(e)
  }

  // Reading on from where a read stopped is one read.
  lemma {:induction false} ReadOn<R, Item>(rows: seq<R>, i: nat, mid: nat, stop: nat, reader: Reader<R, Item>)
    requires i <= mid <= stop <= |rows|
    ensures var first := ReadUpTo(rows, i, mid, reader);
            var second := ReadUpTo(rows, mid, stop, reader);
            var whole := ReadUpTo(rows, i, stop, reader);
            && (first.result.Threw? ==> whole == first)
            && (first.result.Ok? ==> first.to == mid && whole.to == second.to)
            && (first.result.Ok? && second.result.Ok? ==> whole.result == Ok(first.result.value + second.result.value))
            && (first.result.Ok? && second.result.Threw? ==> whole.result == second.result)
    decreases mid - i
  {
    if i == mid {
      var second := ReadUpTo(rows, mid, stop, reader);
      assert second.result.Ok? ==> [] + second.result.value == second.result.value;
    } else if reader(rows[i]).Some? {
      ReadOn(rows, i + 1, mid, stop, reader);
      var first, second := ReadUpTo(rows, i + 1, mid, reader), ReadUpTo(rows, mid, stop, reader);
      if first.result.Ok? && second.result.Ok? {
        var x := [reader(rows[i]).value];
        Grow(x, first.result.value, second.result.value);
      }
    }
  }

  lemma FetchUpTo<R, Item>(rows: seq<R>, i: nat, count: int, reader: Reader<R, Item>, stop: nat)
    requires i <= |rows| && stop == i + Wanted(|rows| - i, count)
    ensures Fetch(rows, i, count, reader) == ReadUpTo(rows, i, stop, reader)
  {
  }

  // One fetch and then another, which one fetch of both counts does in one go.
  lemma FetchBoth<R, Item>(rows: seq<R>, i: nat, a: int, b: int, reader: Reader<R, Item>, first: Chunk<Item>,
                           whole: Chunk<Item>)
    requires i <= |rows| && first == Fetch(rows, i, a, reader) && whole == Fetch(rows, i, Both(a, b), reader)
    ensures first.result.Threw? ==> whole == first
    ensures first.result.Ok? ==>
              var second := Fetch(rows, first.to, b, reader);
              && whole.to == second.to
              && whole.result ==
                 if second.result.Ok? then Ok(first.result.value + second.result.value) else second.result
  {
    var mid, stop := i + Wanted(|rows| - i, a), i + Wanted(|rows| - i, Both(a, b));
    UpToReads(rows, i, mid, reader);
    ReadOn(rows, i, mid, stop, reader);
    if first.result.Ok? {
      FetchUpTo(rows, mid, b, reader, stop);
    }
  }

  // In front of a row that cannot be read, no fetch moves the cursor.
  lemma {:induction false} StaysPut<R, Item>(rows: seq<R>, i: nat, counts: seq<int>, reader: Reader<R, Item>)
    requires i < |rows| && reader(rows[i]).None?
    ensures Reached(i, Run(rows, i, Requests(counts, reader))) == i
    decreases |counts|
  {
    if |counts| == 0 {
    } else {
      assert Requests(counts, reader)[1..] == Requests(counts[1..], reader);
      StaysPut(rows, i, counts[1..], reader);
    }
  }

  // Fetching in chunks of any counts and putting the chunks together is one fetch of all the counts
  // together: the same rows in the same order, or a throw in both, and the cursor in the same place.
  lemma {:induction false} ChunksAreOneFetch<R, Item>(rows: seq<R>, i: nat, counts: seq<int>, reader: Reader<R, Item>)
    requires i <= |rows|
    ensures var chunks := Run(rows, i, Requests(counts, reader));
            var whole := Fetch(rows, i, InAll(counts), reader);
            && Flatten(chunks) == whole.result
            && Reached(i, chunks) == whole.to
    decreases |counts|
  {
    if |counts| == 0 {
    } else {
      var rest := InAll(counts[1..]);
      var c, whole := Fetch(rows, i, counts[0], reader), Fetch(rows, i, Both(counts[0], rest), reader);
      FetchBoth(rows, i, counts[0], rest, reader, c, whole);
      assert Requests(counts, reader)[1..] == Requests(counts[1..], reader);
      ChunksAreOneFetch(rows, c.to, counts[1..], reader);
      if c.result.Threw? {
        UpToReads(rows, i, i + Wanted(|rows| - i, counts[0]), reader);
        StaysPut(rows, c.to, counts[1..], reader);
      }
    }
  }
}
