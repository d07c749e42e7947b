/** Shared values of the news pipeline: the optional-value wrapper, the normalised
    news record every source produces, and the two ways a source folds its raw
    entries into records (all-or-nothing, or keep-what-was-built-before-a-failure). */
module Common {

  datatype Option<+T> = None | Some(value: T) {
    function GetOr(default: T): T {
      match this
      case Some(v) => v
      case None => default
    }
  }

  /** One normalised news record, as the Python dictionaries built by the sources.
      `isTranslated` and `originalTitle` are `None` where the dictionary has no such key. */
  datatype NewsItem = NewsItem(
    source: string,
    title: string,
    link: string,
    pubDate: string,
    isTranslated: Option<bool>,
    originalTitle: Option<string>)

  /** What handling one raw entry does inside a source's loop: an exception is
      raised, the entry is skipped (`continue`), or a record is appended. */
  datatype Step<+U> = Raise | Skip | Emit(record: U)

  /** The loop of a source whose exception handler returns `[]`: any entry that
      raises discards everything built so far. */
  function Gather<T, U>(xs: seq<T>, f: T -> Step<U>): (r: Option<seq<U>>)
    ensures r.Some? ==> |r.value| <= |xs|
    decreases |xs|
  {
    if xs == [] then Some([])
    else match f(xs[0])
      case Raise => None
      case Skip => Gather(xs[1..], f)
      case Emit(u) =>
        match Gather(xs[1..], f)
        case None => None
        case Some(rest) => Some([u] + rest)
  }

  /** The loop of a source whose exception handler falls through: the records
      appended before the first entry that raises are kept. */
  function GatherUntilRaise<T, U>(xs: seq<T>, f: T -> Step<U>): (r: seq<U>)
    ensures |r| <= |xs|
    decreases |xs|
  {
    if xs == [] then []
    else match f(xs[0])
      case Raise => []
      case Skip => GatherUntilRaise(xs[1..], f)
      case Emit(u) => [u] + GatherUntilRaise(xs[1..], f)
  }

  /** Glue for loop invariants: the records already built, in front of what the
      rest of the loop gathers. */
  function Prepend<U>(built: seq<U>, rest: Option<seq<U>>): Option<seq<U>> {
    match rest
    case None => None
    case Some(r) => Some(built + r)
  }

  /** One turn of an all-or-nothing loop over `xs`: what is left to gather after
      entry `i`, in front of the records built so far. */
  lemma GatherTurn<T, U>(xs: seq<T>, i: nat, built: seq<U>, f: T -> Step<U>)
    requires i < |xs|
    ensures Prepend(built, Gather(xs[i..], f)) ==
      match f(xs[i])
      case Raise => None
      case Skip => Prepend(built, Gather(xs[i + 1..], f))
      case Emit(u) => Prepend(built + [u], Gather(xs[i + 1..], f))
  {
    assert xs[i..][0] == xs[i] && xs[i..][1..] == xs[i + 1..];
    match f(xs[i])
    case Raise =>
    case Skip =>
    case Emit(u) =>
      match Gather(xs[i + 1..], f)
      case None =>
      case Some(rest) =>
        assert built + ([u] + rest) == (built + [u]) + rest;
  }

  /** Before the first turn of the loop nothing is built. */
  lemma GatherStart<T, U>(xs: seq<T>, f: T -> Step<U>)
    ensures Prepend([], Gather(xs[0..], f)) == Gather(xs, f)
  {
    assert xs[0..] == xs;
    match Gather(xs, f)
    case None =>
    case Some(r) => assert [] + r == r;
  }

  /** After the last turn nothing is left to gather. */
  lemma GatherDone<T, U>(xs: seq<T>, built: seq<U>, f: T -> Step<U>)
    ensures Prepend(built, Gather(xs[|xs|..], f)) == Some(built)
  {
    assert xs[|xs|..] == [];
    assert built + [] == built;
  }

  /** One turn of a keep-until-a-failure loop over `xs`: the records built so
      far, in front of what is left to gather after entry `i`. */
  lemma UntilRaiseTurn<T, U>(xs: seq<T>, i: nat, built: seq<U>, f: T -> Step<U>)
    requires i < |xs|
    ensures built + GatherUntilRaise(xs[i..], f) ==
      match f(xs[i])
      case Raise => built
      case Skip => built + GatherUntilRaise(xs[i + 1..], f)
      case Emit(u) => (built + [u]) + GatherUntilRaise(xs[i + 1..], f)
  {
    assert xs[i..][0] == xs[i] && xs[i..][1..] == xs[i + 1..];
    match f(xs[i])
    case Raise => assert built + [] == built;
    case Skip =>
    case Emit(u) =>
      assert built + ([u] + GatherUntilRaise(xs[i + 1..], f)) == (built + [u]) + GatherUntilRaise(xs[i + 1..], f);
  }

  /** The ends of a keep-until-a-failure loop: nothing built before the first
      turn, nothing left after the last. */
  lemma UntilRaiseEnds<T, U>(xs: seq<T>, built: seq<U>, f: T -> Step<U>)
    ensures [] + GatherUntilRaise(xs[0..], f) == GatherUntilRaise(xs, f)
    ensures built + GatherUntilRaise(xs[|xs|..], f) == built
  {
    assert xs[0..] == xs;
    assert xs[|xs|..] == [];
    assert built + [] == built;
  }

  /** All-or-nothing: the fold fails exactly when some entry raises. */
  lemma {:induction false} GatherFailsIffSomeRaise<T, U>(xs: seq<T>, f: T -> Step<U>)
    ensures Gather(xs, f).None? <==> exists i | 0 <= i < |xs| :: f(xs[i]).Raise?
  {
    if xs != [] {
      GatherFailsIffSomeRaise(xs[1..], f);
      if exists i | 0 <= i < |xs[1..]| :: f(xs[1..][i]).Raise? {
        var i :| 0 <= i < |xs[1..]| && f(xs[1..][i]).Raise?;
        assert f(xs[i + 1]).Raise?;
      }
      if exists i | 0 <= i < |xs| :: f(xs[i]).Raise? {
        var i :| 0 <= i < |xs| && f(xs[i]).Raise?;
        if i > 0 { assert f(xs[1..][i - 1]).Raise?; }
      }
    }
  }

  /** When every entry yields a record, the fold keeps them all, one per entry,
      in the entries' order. */
  lemma {:induction false} GatherAllEmitted<T, U>(xs: seq<T>, f: T -> Step<U>)
    requires forall i | 0 <= i < |xs| :: f(xs[i]).Emit?
    ensures Gather(xs, f).Some?
    ensures |Gather(xs, f).value| == |xs|
    ensures forall i | 0 <= i < |xs| :: Gather(xs, f).value[i] == f(xs[i]).record
  {
    if xs != [] {
      assert f(xs[0]).Emit?;
      forall i | 0 <= i < |xs[1..]| ensures f(xs[1..][i]).Emit? {
        assert xs[1..][i] == xs[i + 1];
      }
      GatherAllEmitted(xs[1..], f);
    }
  }

  /** When nothing raises, keeping-until-a-failure and all-or-nothing agree. */
  lemma {:induction false} UntilRaiseAgreesWithGather<T, U>(xs: seq<T>, f: T -> Step<U>)
    requires Gather(xs, f).Some?
    ensures GatherUntilRaise(xs, f) == Gather(xs, f).value
  {
    if xs != [] {
      UntilRaiseAgreesWithGather(xs[1..], f);
    }
  }

  /** Partial failure: the records built from the entries before a raising entry
      are kept, and nothing after it is looked at. */
  lemma {:induction false} UntilRaiseKeepsEarlier<T, U>(xs: seq<T>, x: T, ys: seq<T>, f: T -> Step<U>)
    requires Gather(xs, f).Some?
    requires f(x).Raise?
    ensures GatherUntilRaise(xs + [x] + ys, f) == Gather(xs, f).value
  {
    if xs == [] {
      assert (xs + [x] + ys)[0] == x;
    } else {
      assert (xs + [x] + ys)[0] == xs[0];
      assert (xs + [x] + ys)[1..] == xs[1..] + [x] + ys;
      UntilRaiseKeepsEarlier(xs[1..], x, ys, f);
    }
  }

  /** A skipped entry (`continue`) leaves the rest of the batch as it was. */
  lemma {:induction false} GatherSkipsEntry<T, U>(xs: seq<T>, x: T, ys: seq<T>, f: T -> Step<U>)
    requires f(x).Skip?
    ensures Gather(xs + [x] + ys, f) == Gather(xs + ys, f)
  {
    if xs == [] {
      assert (xs + [x] + ys)[0] == x && (xs + [x] + ys)[1..] == ys;
      assert xs + ys == ys;
    } else {
      assert (xs + [x] + ys)[0] == xs[0] == (xs + ys)[0];
      assert (xs + [x] + ys)[1..] == xs[1..] + [x] + ys;
      assert (xs + ys)[1..] == xs[1..] + ys;
      GatherSkipsEntry(xs[1..], x, ys, f);
    }
  }

  /** A property every record the entry handler can emit has, every gathered record has. */
  lemma {:induction false} GatherKeeps<T, U>(xs: seq<T>, f: T -> Step<U>, p: U -> bool)
    requires forall i | 0 <= i < |xs| :: f(xs[i]).Emit? ==> p(f(xs[i]).record)
    ensures Gather(xs, f).Some? ==> forall k | 0 <= k < |Gather(xs, f).value| :: p(Gather(xs, f).value[k])
  {
    if xs != [] {
      forall i | 0 <= i < |xs[1..]| ensures f(xs[1..][i]).Emit? ==> p(f(xs[1..][i]).record) {
        assert xs[1..][i] == xs[i + 1];
      }
      GatherKeeps(xs[1..], f, p);
    }
  }

  /** The same for the keep-until-a-failure fold. */
  lemma {:induction false} UntilRaiseKeeps<T, U>(xs: seq<T>, f: T -> Step<U>, p: U -> bool)
    requires forall i | 0 <= i < |xs| :: f(xs[i]).Emit? ==> p(f(xs[i]).record)
    ensures forall k | 0 <= k < |GatherUntilRaise(xs, f)| :: p(GatherUntilRaise(xs, f)[k])
  {
    if xs != [] {
      forall i | 0 <= i < |xs[1..]| ensures f(xs[1..][i]).Emit? ==> p(f(xs[1..][i]).record) {
        assert xs[1..][i] == xs[i + 1];
      }
      UntilRaiseKeeps(xs[1..], f, p);
    }
  }

  /** Python's `xs[:n]` for a non-negative `n`. */
  function Take<T>(xs: seq<T>, n: nat): (r: seq<T>)
    ensures |r| <= n && |r| <= |xs|
    ensures r == xs[..|r|]
    ensures |r| == n || r == xs
  {
    if n <= |xs| then xs[..n] else xs
  }
}
