/** The loop both quote parsers run: each line (or paragraph) is skipped,
    yields one quote that is appended, or raises and ends the whole parse. */
module QuoteCollect {
  import opened Exceptions
  import opened QuoteModel

  /** What one line contributes. */
  datatype LineOutcome = Skip | Emit(quote: Quote) | Fail(error: Error)

  /** The result of the loop after the lines `lines`, in order: the error of
      the first failing line, or the list of quotes appended so far. */
  function Collect(lines: seq<string>, step: string -> LineOutcome): Result<seq<Quote>>
    decreases |lines|
  {
    if lines == [] then Ok([])
    else
      match Collect(lines[..|lines| - 1], step)
      case Err(e) => Err(e)
      case Ok(qs) =>
        match step(lines[|lines| - 1])
        case Skip => Ok(qs)
        case Emit(q) => Ok(qs + [q])
        case Fail(e) => Err(e)
  }

  /** The loop has run over the first `i` lines without failing and has
      appended `qs`. */
  predicate CollectedUpTo(lines: seq<string>, i: nat, step: string -> LineOutcome, qs: seq<Quote>)
    requires i <= |lines|
  {
    Collect(lines[..i], step) == Ok(qs)
  }

  /** The lines that are not skipped, in order. */
  function Kept(lines: seq<string>, step: string -> LineOutcome): (r: seq<string>)
    ensures |r| <= |lines|
    ensures forall k | 0 <= k < |r| :: r[k] in lines && !step(r[k]).Skip?
    decreases |lines|
  {
    if lines == [] then []
    else (if step(lines[0]).Skip? then [] else [lines[0]]) + Kept(lines[1..], step)
  }

  /** No line fails. */
  predicate NoneFails(lines: seq<string>, step: string -> LineOutcome) {
    forall k | 0 <= k < |lines| :: !step(lines[k]).Fail?
  }

  /** Running the loop over `a + b` is running it over `a`, then over `b`:
      quotes come out in line order and a failure stops everything after. */
  lemma {:induction false} CollectAppend(a: seq<string>, b: seq<string>, step: string -> LineOutcome)
    ensures Collect(a + b, step) ==
      match Collect(a, step)
      case Err(e) => Err(e)
      case Ok(qa) =>
        match Collect(b, step)
        case Err(e) => Err(e)
        case Ok(qb) => Ok(qa + qb)
    decreases |b|
  {
    if b == [] {
      assert a + b == a;
      match Collect(a, step)
      case Err(_) =>
      case Ok(qa) => assert qa + [] == qa;
    } else {
      var b' := b[..|b| - 1];
      assert (a + b)[..|a + b| - 1] == a + b';
      assert (a + b)[|a + b| - 1] == b[|b| - 1];
      CollectAppend(a, b', step);
      match Collect(a, step)
      case Err(_) =>
      case Ok(qa) =>
        match Collect(b', step)
        case Err(_) =>
        case Ok(qb) =>
          match step(b[|b| - 1])
          case Skip =>
          case Fail(_) =>
          case Emit(q) => assert qa + qb + [q] == qa + (qb + [q]);
    }
  }

  /** Collect of the first line, and of the lines after it. */
  lemma CollectFront(lines: seq<string>, step: string -> LineOutcome)
    requires lines != []
    ensures Collect(lines, step) ==
      match Collect([lines[0]], step)
      case Err(e) => Err(e)
      case Ok(qa) =>
        match Collect(lines[1..], step)
        case Err(e) => Err(e)
        case Ok(qb) => Ok(qa + qb)
  {
    assert lines == [lines[0]] + lines[1..];
    CollectAppend([lines[0]], lines[1..], step);
  }

  /** The loop completes exactly when no line fails; it then yields, in
      order, one quote per line that is not skipped, that line's quote. */
  lemma {:induction false} CollectOk(lines: seq<string>, step: string -> LineOutcome)
    ensures Collect(lines, step).Ok? <==> NoneFails(lines, step)
    ensures Collect(lines, step).Ok? ==>
      var qs := Collect(lines, step).value;
      var kept := Kept(lines, step);
      |qs| == |kept| && forall k | 0 <= k < |qs| :: step(kept[k]) == Emit(qs[k])
    decreases |lines|
  {
    if lines != [] {
      CollectFront(lines, step);
      CollectOk(lines[1..], step);
      assert [lines[0]][..0] == [];
      if NoneFails(lines, step) {
        assert !step(lines[0]).Fail?;
        assert NoneFails(lines[1..], step) by {
          forall k | 0 <= k < |lines| - 1 ensures !step(lines[1..][k]).Fail? {
            assert lines[1..][k] == lines[k + 1];
          }
        }
      }
      if !step(lines[0]).Fail? && NoneFails(lines[1..], step) {
        assert NoneFails(lines, step) by {
          forall k | 0 <= k < |lines| ensures !step(lines[k]).Fail? {
            if k > 0 {
              assert lines[k] == lines[1..][k - 1];
            }
          }
        }
      }
    }
  }

  /** When the loop fails, it fails with the error of the first failing
      line. */
  lemma {:induction false} CollectFirstFailure(lines: seq<string>, step: string -> LineOutcome, i: nat)
    requires i < |lines| && step(lines[i]).Fail?
    requires NoneFails(lines[..i], step)
    ensures Collect(lines, step) == Err(step(lines[i]).error)
  {
    assert lines == lines[..i] + [lines[i]] + lines[i + 1..];
    CollectOk(lines[..i], step);
    assert [lines[i]][..0] == [];
    CollectAppend(lines[..i], [lines[i]], step);
    CollectAppend(lines[..i] + [lines[i]], lines[i + 1..], step);
  }

  /** A failure among the first lines settles the result of the whole loop. */
  lemma CollectPrefixErr(lines: seq<string>, i: nat, step: string -> LineOutcome)
    requires i <= |lines| && Collect(lines[..i], step).Err?
    ensures Collect(lines, step) == Collect(lines[..i], step)
  {
    assert lines == lines[..i] + lines[i..];
    CollectAppend(lines[..i], lines[i..], step);
  }

  /** One more line, as the loop body sees it. */
  lemma CollectSnoc(lines: seq<string>, i: nat, step: string -> LineOutcome)
    requires i < |lines|
    ensures Collect(lines[..i + 1], step) ==
      match Collect(lines[..i], step)
      case Err(e) => Err(e)
      case Ok(qs) =>
        match step(lines[i])
        case Skip => Ok(qs)
        case Emit(q) => Ok(qs + [q])
        case Fail(e) => Err(e)
  {
    assert lines[..i + 1][..i] == lines[..i];
  }

  /** When every line yields a quote, the loop yields exactly those quotes. */
  lemma {:induction false} CollectAllEmit(lines: seq<string>, step: string -> LineOutcome, qs: seq<Quote>)
    requires |lines| == |qs|
    requires forall k | 0 <= k < |lines| :: step(lines[k]) == Emit(qs[k])
    ensures Collect(lines, step) == Ok(qs)
    decreases |lines|
  {
    if lines != [] {
      var n := |lines| - 1;
      CollectAllEmit(lines[..n], step, qs[..n]);
      assert qs == qs[..n] + [qs[n]];
    }
  }
}
