/** `splitBatches` of agent/internal/svclogs/collect.go, and the numbering of its batches in `Collect`. */
module LogBatches {

  const MAX_LINES: nat := 200
  const MAX_BYTES: nat := 64 * 1024
  const OVERHEAD: nat := 32

  datatype LogLine = LogLine(ts: int, source: string, severity: string, text: string)

  /** A batch on the wire; its id is "b" followed by `number`. */
  datatype LogsBatch = LogsBatch(number: nat, lines: seq<LogLine>, done: bool, dropped: nat)

  function Cost(line: LogLine): nat {
    |line.text| + OVERHEAD
  }

  function Bytes(lines: seq<LogLine>): nat {
    if lines == [] then 0 else Bytes(lines[..|lines| - 1]) + Cost(lines[|lines| - 1])
  }

  function Flatten(batches: seq<seq<LogLine>>): seq<LogLine> {
    if batches == [] then [] else Flatten(batches[..|batches| - 1]) + batches[|batches| - 1]
  }

  function Chars(lines: seq<LogLine>): nat {
    if lines == [] then 0 else |lines[0].text| + Chars(lines[1..])
  }

  lemma {:induction false} CharsSnoc(lines: seq<LogLine>, ln: LogLine)
    ensures Chars(lines + [ln]) == Chars(lines) + |ln.text|
  {
    if lines != [] {
      CharsSnoc(lines[1..], ln);
      assert (lines + [ln])[1..] == lines[1..] + [ln];
    }
  }

  /** The size of a batch is its text and 32 for each line. */
  lemma {:induction false} BytesMean(lines: seq<LogLine>)
    ensures Bytes(lines) == Chars(lines) + 32 * |lines|
  {
    if lines != [] {
      var n := |lines| - 1;
      BytesMean(lines[..n]);
      CharsSnoc(lines[..n], lines[n]);
      assert lines[..n] + [lines[n]] == lines;
    }
  }

  lemma {:induction false} BytesSnoc(lines: seq<LogLine>, ln: LogLine)
    ensures Bytes(lines + [ln]) == Bytes(lines) + Cost(ln)
  {
    assert (lines + [ln])[..|lines|] == lines;
  }

  lemma {:induction false} FlattenSnoc(batches: seq<seq<LogLine>>, batch: seq<LogLine>)
    ensures Flatten(batches + [batch]) == Flatten(batches) + batch
  {
    assert (batches + [batch])[..|batches|] == batches;
  }

  // ---------------------------------------------------------------- what a split must be

  /** The lines that are keep, in their order. */
  function Chosen(lines: seq<LogLine>, keep: seq<bool>): seq<LogLine>
    requires |keep| == |lines|
  {
    if lines == [] then []
    else
      var n := |lines| - 1;
      var before := Chosen(lines[..n], keep[..n]);
      if keep[n] then before + [lines[n]] else before
  }

  lemma {:induction false} ChosenSnoc(lines: seq<LogLine>, keep: seq<bool>, ln: LogLine)
    requires |keep| == |lines|
    ensures Chosen(lines + [ln], keep + [true]) == Chosen(lines, keep) + [ln]
    ensures Chosen(lines + [ln], keep + [false]) == Chosen(lines, keep)
  {
    assert (lines + [ln])[..|lines|] == lines;
    assert (keep + [true])[..|lines|] == keep && (keep + [false])[..|lines|] == keep;
  }

  lemma {:induction false} ChosenMember(lines: seq<LogLine>, keep: seq<bool>, ln: LogLine)
    requires |keep| == |lines| && ln in Chosen(lines, keep)
    ensures ln in lines
  {
    var n := |lines| - 1;
    if ln in Chosen(lines[..n], keep[..n]) {
      ChosenMember(lines[..n], keep[..n], ln);
    }
  }

  lemma {:induction false} KeptIsChosen(lines: seq<LogLine>, keep: seq<bool>, j: nat)
    requires |keep| == |lines| && j < |keep| && keep[j]
    ensures lines[j] in Chosen(lines, keep)
  {
    var n := |lines| - 1;
    if j < n {
      KeptIsChosen(lines[..n], keep[..n], j);
    }
  }

  /** Within both caps, or a single line too long for any batch. */
  ghost predicate Fits(batch: seq<LogLine>) {
    && 0 < |batch| <= MAX_LINES
    && (Bytes(batch) <= MAX_BYTES || |batch| == 1)
  }

  predicate Full(batch: seq<LogLine>, line: LogLine) {
    |batch| >= MAX_LINES || Bytes(batch) + Cost(line) > MAX_BYTES
  }

  /** Every line left out is too much for the last slot as it stands. */
  ghost predicate NoRoomLeft(lines: seq<LogLine>, keep: seq<bool>, slot: seq<LogLine>)
    requires |keep| == |lines|
  {
    forall j :: 0 <= j < |keep| ==> keep[j] || Full(slot, lines[j])
  }

  /** The batch in the last allowed slot; empty while that slot is unused. */
  function LastSlot(batches: seq<seq<LogLine>>, maxBatches: int): seq<LogLine> {
    if 0 < maxBatches <= |batches| then batches[maxBatches - 1] else []
  }

  ghost predicate Split(lines: seq<LogLine>, maxBatches: int, batches: seq<seq<LogLine>>, dropped: nat, keep: seq<bool>) {
    && |keep| == |lines| && Flatten(batches) == Chosen(lines, keep)
    && |Flatten(batches)| + dropped == |lines|
    && |batches| <= (if maxBatches > 0 then maxBatches else 0)
    && AllFit(batches)
    && Bytes(LastSlot(batches, maxBatches)) <= MAX_BYTES
    && (maxBatches > 0 ==> NoRoomLeft(lines, keep, LastSlot(batches, maxBatches)))
    && (dropped > 0 ==> |batches| + 1 >= maxBatches)
  }

  ghost predicate IsSplit(lines: seq<LogLine>, maxBatches: int, batches: seq<seq<LogLine>>, dropped: nat) {
    && Closed(lines, maxBatches, batches)
    && exists keep :: Split(lines, maxBatches, batches, dropped, keep)
  }

  /** The last slot came up because some line did not fit into the batch before it. */
  ghost predicate LastCame(lines: seq<LogLine>, maxBatches: int, i: nat, batch: seq<LogLine>) {
    i + 2 == maxBatches && exists ln <- lines :: Full(batch, ln)
  }

  /** Batch `i` was full for the line that opens the next one, or for a line dropped on the way to the last slot. */
  ghost predicate Meets(lines: seq<LogLine>, maxBatches: int, i: nat, batch: seq<LogLine>, next: seq<LogLine>) {
    next != [] && (Full(batch, next[0]) || LastCame(lines, maxBatches, i, batch))
  }

  ghost predicate Closed(lines: seq<LogLine>, maxBatches: int, batches: seq<seq<LogLine>>) {
    forall i :: 0 <= i < |batches| - 1 ==> Meets(lines, maxBatches, i, batches[i], batches[i + 1])
  }

  /** `out` is `lines` with some of them left out. */
  ghost predicate IsSubsequence(out: seq<LogLine>, lines: seq<LogLine>) {
    exists keep: seq<bool> :: |keep| == |lines| && out == Chosen(lines, keep)
  }

  /** At most 200 lines of at most 64 KiB in all, each counted with 32 more; or one line alone. */
  predicate SizeFits(batch: seq<LogLine>) {
    0 < |batch| <= 200 && (Chars(batch) + 32 * |batch| <= 65536 || |batch| == 1)
  }

  lemma {:induction false} SizesFit(lines: seq<LogLine>, maxBatches: int, batches: seq<seq<LogLine>>, dropped: nat)
    requires IsSplit(lines, maxBatches, batches, dropped)
    ensures forall i :: 0 <= i < |batches| ==> SizeFits(batches[i])
  {
    var keep :| Split(lines, maxBatches, batches, dropped, keep);
    assert AllFit(batches);
    forall i | 0 <= i < |batches| ensures SizeFits(batches[i]) {
      assert Fits(batches[i]);
      BytesMean(batches[i]);
    }
  }

  // ---------------------------------------------------------------- the loop

  ghost predicate AllFit(batches: seq<seq<LogLine>>) {
    forall i :: 0 <= i < |batches| ==> Fits(batches[i])
  }

  ghost predicate AllKept(keep: seq<bool>) {
    forall j :: 0 <= j < |keep| ==> keep[j]
  }

  /** Nothing seen is unaccounted for. */
  ghost predicate Accounted(seen: seq<LogLine>, batched: seq<LogLine>, cur: seq<LogLine>, dropped: nat, keep: seq<bool>) {
    && |keep| == |seen|
    && batched + cur == Chosen(seen, keep)
    && |batched| + |cur| + dropped == |seen|
  }

  /** Lines go missing only once the last slot is being filled, and only when it cannot take them. */
  ghost predicate Slots(
    seen: seq<LogLine>, maxBatches: int, done: nat, cur: seq<LogLine>, dropped: nat, keep: seq<bool>)
    requires |keep| == |seen|
  {
    if maxBatches <= 0 then done == 0 && cur == []
    else
      && done < maxBatches
      && (cur != [] ==> Fits(cur))
      && (done + 1 == maxBatches ==> Bytes(cur) <= MAX_BYTES && NoRoomLeft(seen, keep, cur))
      && (done + 1 < maxBatches ==> dropped == 0 && AllKept(keep))
  }

  /** What holds of the loop's variables when a line is about to be looked at. */
  ghost predicate Going(
    seen: seq<LogLine>, maxBatches: int, batches: seq<seq<LogLine>>, cur: seq<LogLine>, dropped: nat, keep: seq<bool>)
  {
    && AllFit(batches)
    && Accounted(seen, Flatten(batches), cur, dropped, keep)
    && Slots(seen, maxBatches, |batches|, cur, dropped, keep)
  }

  /** The same for the batch being filled. */
  ghost predicate Tight(seen: seq<LogLine>, maxBatches: int, batches: seq<seq<LogLine>>, cur: seq<LogLine>) {
    && Closed(seen, maxBatches, batches)
    && (batches != [] ==>
          var i := |batches| - 1;
          if cur == [] then LastCame(seen, maxBatches, i, batches[i]) else Meets(seen, maxBatches, i, batches[i], cur))
  }

  /** And for one that may just have been opened for `ln`. */
  ghost predicate TightFor(
    seen: seq<LogLine>, ln: LogLine, maxBatches: int, batches: seq<seq<LogLine>>, cur: seq<LogLine>)
  {
    || Tight(seen, maxBatches, batches, cur)
    || (Closed(seen, maxBatches, batches) && batches != [] && cur == [] && Full(batches[|batches| - 1], ln))
  }

  lemma {:induction false} MeetsGrows(seen: seq<LogLine>, ln: LogLine, maxBatches: int, i: nat, batch: seq<LogLine>)
    ensures LastCame(seen, maxBatches, i, batch) ==> LastCame(seen + [ln], maxBatches, i, batch)
    ensures i + 2 == maxBatches && Full(batch, ln) ==> LastCame(seen + [ln], maxBatches, i, batch)
  {
    assert ln in seen + [ln] && forall x <- seen :: x in seen + [ln];
  }

  lemma {:induction false} ClosedGrows(seen: seq<LogLine>, ln: LogLine, maxBatches: int, batches: seq<seq<LogLine>>)
    requires Closed(seen, maxBatches, batches)
    ensures Closed(seen + [ln], maxBatches, batches)
  {
    forall i | 0 <= i < |batches| - 1 ensures Meets(seen + [ln], maxBatches, i, batches[i], batches[i + 1]) {
      MeetsGrows(seen, ln, maxBatches, i, batches[i]);
    }
  }

  lemma {:induction false} DropKeepsTight(
    seen: seq<LogLine>, ln: LogLine, maxBatches: int, batches: seq<seq<LogLine>>, cur: seq<LogLine>)
    requires TightFor(seen, ln, maxBatches, batches, cur)
    requires batches != [] ==> |batches| + 1 == maxBatches
    ensures Tight(seen + [ln], maxBatches, batches, cur)
  {
    ClosedGrows(seen, ln, maxBatches, batches);
    if batches != [] {
      MeetsGrows(seen, ln, maxBatches, |batches| - 1, batches[|batches| - 1]);
    }
  }

  lemma {:induction false} TakeKeepsTight(
    seen: seq<LogLine>, ln: LogLine, maxBatches: int, batches: seq<seq<LogLine>>, cur: seq<LogLine>)
    requires TightFor(seen, ln, maxBatches, batches, cur)
    ensures Tight(seen + [ln], maxBatches, batches, cur + [ln])
  {
    ClosedGrows(seen, ln, maxBatches, batches);
    assert (cur + [ln])[0] == if cur == [] then ln else cur[0];
    if batches != [] {
      MeetsGrows(seen, ln, maxBatches, |batches| - 1, batches[|batches| - 1]);
    }
  }

  lemma {:induction false} FlushKeepsTight(
    seen: seq<LogLine>, ln: LogLine, maxBatches: int, batches: seq<seq<LogLine>>, cur: seq<LogLine>)
    requires Tight(seen, maxBatches, batches, cur) && cur != []
    ensures Closed(seen, maxBatches, batches + [cur])
    ensures Full(cur, ln) ==> TightFor(seen, ln, maxBatches, batches + [cur], [])
  {
  }

  lemma {:induction false} DropLine(
    seen: seq<LogLine>, ln: LogLine, maxBatches: int, batches: seq<seq<LogLine>>, cur: seq<LogLine>, dropped: nat,
    keep: seq<bool>)
    requires Going(seen, maxBatches, batches, cur, dropped, keep)
    requires maxBatches > 0 ==> |batches| + 1 >= maxBatches && Full(cur, ln)
    ensures Going(seen + [ln], maxBatches, batches, cur, dropped + 1, keep + [false])
  {
    ChosenSnoc(seen, keep, ln);
  }

  lemma {:induction false} Flush(
    seen: seq<LogLine>, maxBatches: int, batches: seq<seq<LogLine>>, cur: seq<LogLine>, dropped: nat, keep: seq<bool>)
    requires Going(seen, maxBatches, batches, cur, dropped, keep) && |batches| + 1 < maxBatches && cur != []
    ensures Going(seen, maxBatches, batches + [cur], [], dropped, keep)
  {
    FlattenSnoc(batches, cur);
    assert Flatten(batches) + cur + [] == Flatten(batches) + cur;
  }

  lemma {:induction false} TakeKeepsSlots(
    seen: seq<LogLine>, ln: LogLine, maxBatches: int, done: nat, cur: seq<LogLine>, dropped: nat, keep: seq<bool>)
    requires |keep| == |seen| && Slots(seen, maxBatches, done, cur, dropped, keep) && maxBatches > 0
    requires !Full(cur, ln) || (cur == [] && done + 1 < maxBatches)
    ensures Slots(seen + [ln], maxBatches, done, cur + [ln], dropped, keep + [true])
  {
    BytesSnoc(cur, ln);
  }

  lemma {:induction false} TakeLine(
    seen: seq<LogLine>, ln: LogLine, maxBatches: int, batches: seq<seq<LogLine>>, cur: seq<LogLine>, dropped: nat,
    keep: seq<bool>)
    requires Going(seen, maxBatches, batches, cur, dropped, keep) && maxBatches > 0
    requires !Full(cur, ln) || (cur == [] && |batches| + 1 < maxBatches)
    ensures Going(seen + [ln], maxBatches, batches, cur + [ln], dropped, keep + [true])
  {
    TakeKeepsSlots(seen, ln, maxBatches, |batches|, cur, dropped, keep);
    ChosenSnoc(seen, keep, ln);
    var batched := Flatten(batches);
    assert batched + (cur + [ln]) == batched + cur + [ln];
  }

  /** The final flush completes the split. */
  lemma {:induction false} Finish(
    lines: seq<LogLine>, maxBatches: int, batches: seq<seq<LogLine>>, cur: seq<LogLine>, dropped: nat, keep: seq<bool>)
    requires Going(lines, maxBatches, batches, cur, dropped, keep)
    ensures Split(lines, maxBatches, if cur == [] then batches else batches + [cur], dropped, keep)
  {
    if cur == [] {
      assert Flatten(batches) + cur == Flatten(batches);
    } else {
      FlattenSnoc(batches, cur);
    }
  }

  lemma {:induction false} FinishSplit(
    lines: seq<LogLine>, maxBatches: int, batches: seq<seq<LogLine>>, cur: seq<LogLine>, dropped: nat, keep: seq<bool>)
    requires OnTrack(lines, maxBatches, batches, cur, dropped, keep)
    ensures IsSplit(lines, maxBatches, if cur == [] then batches else batches + [cur], dropped)
    ensures |batches| >= maxBatches ==> cur == []
  {
    Finish(lines, maxBatches, batches, cur, dropped, keep);
    assert cur != [] ==> Closed(lines, maxBatches, batches + [cur]);
  }

  ghost predicate OnTrack(
    seen: seq<LogLine>, maxBatches: int, batches: seq<seq<LogLine>>, cur: seq<LogLine>, dropped: nat, keep: seq<bool>)
  {
    Going(seen, maxBatches, batches, cur, dropped, keep) && Tight(seen, maxBatches, batches, cur)
  }

  /** The second half of the loop's body, once the current batch has been flushed if the line did not fit in it. */
  method Put(
    ghost seen: seq<LogLine>, ln: LogLine, maxBatches: int, batches: seq<seq<LogLine>>, cur: seq<LogLine>, bytes: nat,
    dropped: nat, ghost keep: seq<bool>)
    returns (cur': seq<LogLine>, bytes': nat, dropped': nat, ghost keep': seq<bool>)
    requires Going(seen, maxBatches, batches, cur, dropped, keep) && bytes == Bytes(cur)
    requires TightFor(seen, ln, maxBatches, batches, cur) && (cur == [] || !Full(cur, ln))
    ensures Going(seen + [ln], maxBatches, batches, cur', dropped', keep') && bytes' == Bytes(cur')
    ensures Tight(seen + [ln], maxBatches, batches, cur')
  {
    var cost := Cost(ln);
    if |batches| >= maxBatches {
      DropKeepsTight(seen, ln, maxBatches, batches, cur);
      DropLine(seen, ln, maxBatches, batches, cur, dropped, keep);
      return cur, bytes, dropped + 1, keep + [false];
    }
    if |cur| >= MAX_LINES || bytes + cost > MAX_BYTES {
      if |batches| + 1 >= maxBatches {
        DropKeepsTight(seen, ln, maxBatches, batches, cur);
        DropLine(seen, ln, maxBatches, batches, cur, dropped, keep);
        return cur, bytes, dropped + 1, keep + [false];
      }
      // Only an oversized line gets here, and then there is nothing to flush.
      assert cur == [];
    }
    TakeKeepsTight(seen, ln, maxBatches, batches, cur);
    TakeLine(seen, ln, maxBatches, batches, cur, dropped, keep);
    BytesSnoc(cur, ln);
    return cur + [ln], bytes + cost, dropped, keep + [true];
  }

  /** The body of the loop: the line is dropped, joins the current batch or opens the next one. */
  method PlaceLine(
    ghost seen: seq<LogLine>, ln: LogLine, maxBatches: int, batches: seq<seq<LogLine>>, cur: seq<LogLine>, bytes: nat,
    dropped: nat, ghost keep: seq<bool>)
    returns (batches': seq<seq<LogLine>>, cur': seq<LogLine>, bytes': nat, dropped': nat, ghost keep': seq<bool>)
    requires OnTrack(seen, maxBatches, batches, cur, dropped, keep) && bytes == Bytes(cur)
    ensures OnTrack(seen + [ln], maxBatches, batches', cur', dropped', keep') && bytes' == Bytes(cur')
  {
    if |cur| >= MAX_LINES || (|cur| > 0 && bytes + Cost(ln) > MAX_BYTES) {
      if |batches| + 1 >= maxBatches {
        DropKeepsTight(seen, ln, maxBatches, batches, cur);
        DropLine(seen, ln, maxBatches, batches, cur, dropped, keep);
        return batches, cur, bytes, dropped + 1, keep + [false];
      }
      FlushKeepsTight(seen, ln, maxBatches, batches, cur);
      Flush(seen, maxBatches, batches, cur, dropped, keep);
      batches' := batches + [cur];
      cur', bytes', dropped', keep' := Put(seen, ln, maxBatches, batches', [], 0, dropped, keep);
    } else {
      batches' := batches;
      cur', bytes', dropped', keep' := Put(seen, ln, maxBatches, batches, cur, bytes, dropped, keep);
    }
  }

  /**
    * Cuts the lines into at most `maxBatches` batches within the caps. A line is dropped only when the last slot has
    * come up and cannot take it, and still could not at the end; a batch is closed only when it is full.
    */
  method SplitBatches(lines: seq<LogLine>, maxBatches: int)
    returns (batches: seq<seq<LogLine>>, dropped: nat)
    ensures IsSplit(lines, maxBatches, batches, dropped)
    ensures forall i :: 0 <= i < |batches| ==> SizeFits(batches[i])
  {
    batches, dropped := [], 0;
    var cur, bytes := [], 0;
    ghost var keep := [];
    ghost var seen := [];
    for i := 0 to |lines|
      invariant seen == lines[..i] && bytes == Bytes(cur)
      invariant OnTrack(seen, maxBatches, batches, cur, dropped, keep)
    {
      batches, cur, bytes, dropped, keep := PlaceLine(seen, lines[i], maxBatches, batches, cur, bytes, dropped, keep);
      seen := seen + [lines[i]];
    }
    assert lines[..|lines|] == lines;
    // With no slot left the source counts `cur` as dropped; there is then never anything in it.
    FinishSplit(lines, maxBatches, batches, cur, dropped, keep);
    if |cur| > 0 {
      batches := batches + [cur];
    }
    SizesFit(lines, maxBatches, batches, dropped);
  }

  /** Nothing comes out exactly when nothing came in, or when a single slot met only oversized lines. */
  lemma {:induction false} EmptySplit(
    lines: seq<LogLine>, maxBatches: int, batches: seq<seq<LogLine>>, dropped: nat, keep: seq<bool>)
    requires maxBatches > 0 && Split(lines, maxBatches, batches, dropped, keep)
    ensures batches == [] <==> lines == [] || (maxBatches == 1 && forall ln <- lines :: Cost(ln) > MAX_BYTES)
  {
    if batches == [] {
      assert lines != [] ==> maxBatches == 1;
      forall ln | ln in lines ensures Cost(ln) > MAX_BYTES {
        var j :| 0 <= j < |lines| && lines[j] == ln;
        if keep[j] {
          KeptIsChosen(lines, keep, j);
        }
        assert Full([], lines[j]);
      }
    } else {
      var b := batches[|batches| - 1];
      assert Fits(b);
      var ln, at := b[|b| - 1], |Flatten(batches)| - 1;
      assert Flatten(batches)[at] == ln;
      ChosenMember(lines, keep, ln);
      assert Bytes(b) >= Cost(ln);
    }
  }

  // ---------------------------------------------------------------- Collect

  const MAX_BATCHES: nat := 5

  /**
    * The numbering step of Collect. The receiver's last batch reports how many lines are missing, except when there
    * is no batch to report on: then the count of dropped lines is lost.
    */
  method CollectBatches(all: seq<LogLine>, maxBatches: int) returns (out: seq<LogsBatch>)
    ensures |out| >= 1 && IsSubsequence(Flatten(LinesOf(out)), all)
    ensures forall i :: 0 <= i < |out| ==> out[i].number == i && (out[i].done <==> i == |out| - 1)
    ensures |Flatten(LinesOf(out))| + out[|out| - 1].dropped == |all|
            <==> all == [] || maxBatches != 1 || exists ln <- all :: Cost(ln) <= MAX_BYTES
  {
    var limit := if maxBatches <= 0 then MAX_BATCHES else maxBatches;
    var batches, dropped := SplitBatches(all, limit);
    ghost var keep :| Split(all, limit, batches, dropped, keep);
    EmptySplit(all, limit, batches, dropped, keep);
    if |batches| == 0 {
      out := [LogsBatch(0, [], true, 0)];
      OneEmptyBatch();
    } else {
      out := [];
      for i := 0 to |batches|
        invariant |out| == i
        invariant forall k :: 0 <= k < i ==> out[k] == LogsBatch(k, batches[k], k == |batches| - 1, 0)
      {
        out := out + [LogsBatch(i, batches[i], i == |batches| - 1, 0)];
      }
      out := out[|out| - 1 := out[|out| - 1].(dropped := dropped)];
      assert LinesOf(out) == batches;
    }
  }

  function LinesOf(out: seq<LogsBatch>): seq<seq<LogLine>> {
    seq(|out|, i requires 0 <= i < |out| => out[i].lines)
  }

  lemma {:induction false} OneEmptyBatch()
    ensures Flatten(LinesOf([LogsBatch(0, [], true, 0)])) == []
  {
    var one := LinesOf([LogsBatch(0, [], true, 0)]);
    assert one == [[]];
    assert Flatten(one) == Flatten(one[..0]) + one[0];
  }
}
