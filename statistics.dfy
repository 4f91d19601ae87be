/** The statistics the decoder gathers from sampled outcomes: the syndrome counts of
    S_count_P_cond, the conditional error of conditional_M_S and corrected_conditional, and
    the logical error rates of logical_error. */
module Statistics {
  import opened Outcomes
  import opened Lists
  import opened Reals

  // ---------------------------------------------------------------------------------------
  // Conditional error of one sample
  // ---------------------------------------------------------------------------------------

  /** conditional_M_S: a sample counts as a logical error exactly when its logical value is -1.
      The syndrome plays no part. */
  function ConditionalMS(m: int, syndrome: seq<int>): (p: int)
    ensures p == 0 || p == 1
    ensures p == 1 <==> m == -1
  {
    if m == -1 then 1 else 0
  }

  /** corrected_conditional: min(P, 1 - P), the error left after correcting towards the more
      likely logical value. It is one of P and 1 - P, at most both, and never above 1/2; for a
      probability it is non-negative. */
  function CorrectedConditional(p: real): (c: real)
    ensures c == p || c == 1.0 - p
    ensures c <= p && c <= 1.0 - p && c <= 0.5
    ensures 0.0 <= p <= 1.0 ==> 0.0 <= c
  {
    if 1.0 - p < p then 1.0 - p else p
  }

  /** Correcting P and correcting 1 - P leave the same error. */
  lemma CorrectedSymmetric(p: real)
    ensures CorrectedConditional(p) == CorrectedConditional(1.0 - p)
  {
  }

  // ---------------------------------------------------------------------------------------
  // Syndrome keys: ''.join(map(str, S_meas))
  // ---------------------------------------------------------------------------------------

  /** The decimal digit `d`. */
  function Digit(d: nat): (ch: char)
    requires d < 10
    ensures '0' <= ch <= '9'
  {
    "0123456789"[d]
  }

  /** str() of a non-negative integer: its decimal digits, most significant first. */
  function ShowNat(x: nat): (s: string)
    ensures |s| >= 1 && '0' <= s[0] <= '9'
  {
    if x < 10 then [Digit(x)] else ShowNat(x / 10) + [Digit(x % 10)]
  }

  /** str() of an integer: a minus sign before the digits of a negative one. */
  function Show(x: int): (s: string)
    ensures |s| >= 1
    ensures s[0] == '-' <==> x < 0
  {
    if x < 0 then "-" + ShowNat(-x) else ShowNat(x)
  }

  /** ''.join(map(str, values)): the dictionary key of a syndrome. */
  function Join(values: seq<int>): (s: string)
    ensures |s| >= |values|
    ensures values != [] ==> (s[0] == '-' <==> values[0] < 0)
  {
    if values == [] then "" else Show(values[0]) + Join(values[1..])
  }

  /** A measured syndrome: every stabilizer value is 1 or -1. */
  predicate IsSyndrome(values: seq<int>)
  {
    forall i :: 0 <= i < |values| ==> values[i] == 1 || values[i] == -1
  }

  /** The key of a syndrome starts with '1' when its first value is 1 and with '-' when it is
      -1; the key of the empty syndrome is empty. */
  lemma JoinHead(values: seq<int>)
    requires IsSyndrome(values)
    ensures values == [] <==> Join(values) == ""
    ensures values != [] ==>
      |Join(values)| >= 1 && Join(values)[0] == (if values[0] == 1 then '1' else '-') &&
      Join(values) == Show(values[0]) + Join(values[1..]) &&
      Show(values[0]) == (if values[0] == 1 then "1" else "-1")
  {
    if values != [] {
      assert ShowNat(1) == "1";
    }
  }

  /** Different syndromes get different keys, so S_count_P_cond counts each syndrome under a
      key of its own. */
  lemma {:induction false} JoinInjective(a: seq<int>, b: seq<int>)
    requires IsSyndrome(a) && IsSyndrome(b) && Join(a) == Join(b)
    ensures a == b
  {
    JoinHead(a);
    JoinHead(b);
    if a != [] {
      JoinTail(a, b);
      JoinInjective(a[1..], b[1..]);
      assert a == [a[0]] + a[1..] && b == [b[0]] + b[1..];
    }
  }

  /** Two non-empty syndromes with the same key agree on their first value and on the key of
      the rest. */
  lemma JoinTail(a: seq<int>, b: seq<int>)
    requires IsSyndrome(a) && IsSyndrome(b) && a != [] && b != [] && Join(a) == Join(b)
    ensures a[0] == b[0] && Join(a[1..]) == Join(b[1..])
  {
    JoinHead(a);
    JoinHead(b);
    var head := Show(a[0]);
    assert Join(a)[|head|..] == Join(a[1..]);
    assert Join(b)[|head|..] == Join(b[1..]);
  }

  /** No syndrome has the key "0", so the "0" branch of logical_error is never taken on keys
      S_count_P_cond produces. */
  lemma ZeroKeyUnused(values: seq<int>)
    requires IsSyndrome(values)
    ensures Join(values) != "0"
  {
    JoinHead(values);
  }

  // ---------------------------------------------------------------------------------------
  // Counting syndromes (S_count_P_cond)
  // ---------------------------------------------------------------------------------------

  /** A sample is the pair get_logical_op returns: the logical value and the syndrome. */
  type Sample = (int, seq<int>)

  /** The keys of the samples, in sampling order. */
  function Keys(samples: seq<Sample>): (keys: seq<string>)
    ensures |keys| == |samples|
  {
    if samples == [] then []
    else Keys(samples[..|samples| - 1]) + [Join(samples[|samples| - 1].1)]
  }

  /** What one sample adds to a tally: 1 when counting all samples; conditional_M_S when
      counting logical errors only. */
  function Hits(sample: Sample, onlyErrors: bool): (h: nat)
    ensures h <= 1
  {
    if onlyErrors then ConditionalMS(sample.0, sample.1) else 1
  }

  /** The number of samples with key `key`: all of them, or only the logical errors. */
  function Tally(samples: seq<Sample>, key: string, onlyErrors: bool): nat
  {
    if samples == [] then 0
    else
      var last := samples[|samples| - 1];
      Tally(samples[..|samples| - 1], key, onlyErrors) +
        (if Join(last.1) == key then Hits(last, onlyErrors) else 0)
  }

  /** The number of samples: all of them, or only the logical errors. */
  function Total(samples: seq<Sample>, onlyErrors: bool): nat
  {
    if samples == [] then 0
    else Total(samples[..|samples| - 1], onlyErrors) + Hits(samples[|samples| - 1], onlyErrors)
  }

  /** The logical errors with a key never outnumber the samples with that key, and a key that
      occurs has at least one sample. */
  lemma {:induction false} TallyBounds(samples: seq<Sample>, key: string)
    ensures Tally(samples, key, true) <= Tally(samples, key, false)
    ensures key in Keys(samples) <==> Tally(samples, key, false) > 0
  {
    if samples != [] {
      var init := samples[..|samples| - 1];
      TallyBounds(init, key);
    }
  }

  /** Every sample counts once when all samples are counted. */
  lemma {:induction false} TotalAll(samples: seq<Sample>)
    ensures Total(samples, false) == |samples|
  {
    if samples != [] {
      TotalAll(samples[..|samples| - 1]);
    }
  }

  /** One more sample adds its hits to its own key's tally and leaves every other tally alone. */
  lemma TallyStep(samples: seq<Sample>, i: nat, key: string, onlyErrors: bool)
    requires i < |samples|
    ensures Tally(samples[..i + 1], key, onlyErrors) ==
      Tally(samples[..i], key, onlyErrors) + (if Join(samples[i].1) == key then Hits(samples[i], onlyErrors) else 0)
  {
    assert samples[..i + 1][..i] == samples[..i];
  }

  /** Key i is the key of sample i. */
  lemma {:induction false} KeysAt(samples: seq<Sample>, i: nat)
    requires i < |samples|
    ensures Keys(samples)[i] == Join(samples[i].1)
  {
    var n := |samples| - 1;
    var init := samples[..n];
    assert Keys(samples) == Keys(init) + [Join(samples[n].1)];
    if i < n {
      KeysAt(init, i);
      assert init[i] == samples[i];
    }
  }

  /** The keys of one more sample. */
  lemma KeysStep(samples: seq<Sample>, i: nat)
    requires i < |samples|
    ensures Keys(samples[..i + 1]) == Keys(samples[..i]) + [Join(samples[i].1)]
  {
    assert samples[..i + 1][..i] == samples[..i];
  }

  /** Counting one more sample: its key joins the first-seen list when it is new. */
  lemma MeasuredStep(samples: seq<Sample>, i: nat)
    requires i < |samples|
    ensures var joined, before := Join(samples[i].1), FirstOccurrences(Keys(samples[..i]));
      FirstOccurrences(Keys(samples[..i + 1])) == if joined in before then before else before + [joined]
  {
    var keys := Keys(samples[..i + 1]);
    KeysStep(samples, i);
    assert keys[..|keys| - 1] == Keys(samples[..i]);
  }

  /** One counting step keeps a dictionary faithful to its tallies: the key of sample i gains
      the sample's hits (starting from 0 when new) and every other entry stays as it was. */
  lemma {:induction false} TallyUpdate(samples: seq<Sample>, i: nat, onlyErrors: bool, before: map<string, int>,
                                       after: map<string, int>)
    requires i < |samples|
    requires forall k :: k in before <==> k in Keys(samples[..i])
    requires forall k :: k in before ==> before[k] == Tally(samples[..i], k, onlyErrors)
    requires after.Keys == before.Keys + {Join(samples[i].1)}
    requires var joined := Join(samples[i].1);
      after[joined] == (if joined in before then before[joined] else 0) + Hits(samples[i], onlyErrors)
    requires forall k :: k in before && k != Join(samples[i].1) ==> after[k] == before[k]
    ensures forall k :: k in after <==> k in Keys(samples[..i + 1])
    ensures forall k :: k in after ==> after[k] == Tally(samples[..i + 1], k, onlyErrors)
  {
    var joined := Join(samples[i].1);
    KeysStep(samples, i);
    TallyBounds(samples[..i], joined);
    forall k | k in after
      ensures after[k] == Tally(samples[..i + 1], k, onlyErrors)
    {
      TallyStep(samples, i, k, onlyErrors);
    }
  }

  /** The body of S_count_P_cond's loop for one sample with key `joined`: a new key is appended
      to S_measured and starts at P_dict = pCond, S_count = 1; a known key adds pCond to its
      P_dict entry and 1 to its S_count entry. No other entry changes. */
  method CountSample(measured: seq<string>, pDict: map<string, int>, sCount: map<string, int>,
                     joined: string, pCond: int)
    returns (measured': seq<string>, pDict': map<string, int>, sCount': map<string, int>)
    requires joined in measured ==> joined in pDict && joined in sCount
    requires pCond == 0 || pCond == 1
    ensures measured' == if joined in measured then measured else measured + [joined]
    ensures pDict'.Keys == pDict.Keys + {joined} && sCount'.Keys == sCount.Keys + {joined}
    ensures pDict'[joined] == (if joined in measured then pDict[joined] else 0) + pCond
    ensures sCount'[joined] == (if joined in measured then sCount[joined] else 0) + 1
    ensures forall k :: k in pDict && k != joined ==> pDict'[k] == pDict[k]
    ensures forall k :: k in sCount && k != joined ==> sCount'[k] == sCount[k]
  {
    measured', pDict', sCount' := measured, pDict, sCount;
    if joined in measured {
      if pCond == 1 {
        pDict' := pDict'[joined := 1 + pDict'[joined]];
      }
      sCount' := sCount'[joined := 1 + sCount'[joined]];
    } else {
      measured' := measured' + [joined];
      if pCond == 1 {
        pDict' := pDict'[joined := 1];
      } else {
        pDict' := pDict'[joined := 0];
      }
      sCount' := sCount'[joined := 1];
    }
  }

  /** S_count_P_cond over `monteSteps` samples. It lists the keys in the order first seen
      (S_measured, which is also the key order of both dictionaries). It returns P_dict, which
      counts the logical errors per key, and S_count, which counts the samples per key. */
  method SCountPCond(samples: seq<Sample>, monteSteps: nat)
    returns (measured: seq<string>, pDict: map<string, int>, sCount: map<string, int>)
    requires |samples| == monteSteps
    ensures measured == FirstOccurrences(Keys(samples))
    ensures forall k :: k in pDict <==> k in Keys(samples)
    ensures forall k :: k in sCount <==> k in Keys(samples)
    ensures forall k :: k in sCount ==> sCount[k] == Tally(samples, k, false)
    ensures forall k :: k in pDict ==> pDict[k] == Tally(samples, k, true)
  {
    measured, pDict, sCount := [], map[], map[];
    for i := 0 to monteSteps
      invariant measured == FirstOccurrences(Keys(samples[..i]))
      invariant forall k :: k in pDict <==> k in Keys(samples[..i])
      invariant forall k :: k in sCount <==> k in Keys(samples[..i])
      invariant forall k :: k in sCount ==> sCount[k] == Tally(samples[..i], k, false)
      invariant forall k :: k in pDict ==> pDict[k] == Tally(samples[..i], k, true)
    {
      var (mCount, sMeas) := samples[i];
      var joined := Join(sMeas);
      var pCond := ConditionalMS(mCount, sMeas);
      ghost var pBefore, sBefore := pDict, sCount;
      MeasuredStep(samples, i);
      measured, pDict, sCount := CountSample(measured, pDict, sCount, joined, pCond);
      TallyUpdate(samples, i, true, pBefore, pDict);
      TallyUpdate(samples, i, false, sBefore, sCount);
    }
    assert samples[..monteSteps] == samples;
  }

  // ---------------------------------------------------------------------------------------
  // Sums over the keys
  // ---------------------------------------------------------------------------------------

  /** The sum of the dictionary's values at `keys`. */
  function SumAt(keys: seq<string>, m: map<string, int>): int
    requires forall k :: k in keys ==> k in m
  {
    if keys == [] then 0 else SumAt(keys[..|keys| - 1], m) + m[keys[|keys| - 1]]
  }

  /** The sum of the tallies of `keys`. */
  function SumTally(keys: seq<string>, samples: seq<Sample>, onlyErrors: bool): nat
  {
    if keys == [] then 0
    else SumTally(keys[..|keys| - 1], samples, onlyErrors) + Tally(samples, keys[|keys| - 1], onlyErrors)
  }

  /** Summing a dictionary that holds the tallies sums the tallies. */
  lemma {:induction false} SumAtTallies(keys: seq<string>, m: map<string, int>, samples: seq<Sample>,
                                        onlyErrors: bool)
    requires forall k :: k in keys ==> k in m && m[k] == Tally(samples, k, onlyErrors)
    ensures SumAt(keys, m) == SumTally(keys, samples, onlyErrors)
  {
    if keys != [] {
      SumAtTallies(keys[..|keys| - 1], m, samples, onlyErrors);
    }
  }

  /** Over distinct keys, one more sample raises the sum of the tallies by its hits when its key
      is among them, and leaves it alone otherwise. */
  lemma {:induction false} SumTallyStep(keys: seq<string>, samples: seq<Sample>, onlyErrors: bool)
    requires Distinct(keys) && samples != []
    ensures var last := samples[|samples| - 1];
      SumTally(keys, samples, onlyErrors) ==
        SumTally(keys, samples[..|samples| - 1], onlyErrors) + (if Join(last.1) in keys then Hits(last, onlyErrors) else 0)
  {
    if keys != [] {
      var init := keys[..|keys| - 1];
      assert Distinct(init);
      assert keys == init + [keys[|keys| - 1]];
      SumTallyStep(init, samples, onlyErrors);
    }
  }

  /** Every sample is counted under exactly one key: the tallies over the first-seen keys add up
      to the number of samples (or of logical errors). */
  lemma {:induction false} TalliesPartition(samples: seq<Sample>, onlyErrors: bool)
    ensures SumTally(FirstOccurrences(Keys(samples)), samples, onlyErrors) == Total(samples, onlyErrors)
  {
    if samples != [] {
      var n := |samples| - 1;
      TalliesPartition(samples[..n], onlyErrors);
      PartitionStep(samples, onlyErrors);
    }
  }

  /** One more sample raises the sum of the tallies over the first-seen keys by its hits,
      whether its key is new or not. */
  lemma PartitionStep(samples: seq<Sample>, onlyErrors: bool)
    requires samples != []
    ensures var n := |samples| - 1;
      SumTally(FirstOccurrences(Keys(samples)), samples, onlyErrors) ==
        SumTally(FirstOccurrences(Keys(samples[..n])), samples[..n], onlyErrors) + Hits(samples[n], onlyErrors)
  {
    var n := |samples| - 1;
    var init := samples[..n];
    var joined := Join(samples[n].1);
    var before := FirstOccurrences(Keys(init));
    MeasuredStep(samples, n);
    assert samples[..n + 1] == samples;
    SumTallyStep(before, samples, onlyErrors);
    if joined !in before {
      var after := before + [joined];
      assert after[..|after| - 1] == before;
      TallyBounds(init, joined);
      TallyStep(samples, n, joined, onlyErrors);
    }
  }

  // ---------------------------------------------------------------------------------------
  // Logical error rates (logical_error)
  // ---------------------------------------------------------------------------------------

  /** Python's true division of two integers, exactly. */
  function TrueDiv(a: int, b: int): real
    requires b != 0
  {
    a as real / b as real
  }

  /** What logical_error computes over the keys in `keys`, in order: the logical error rate
      after correction and the rate without correction. A non-"0" key adds S_count/steps times
      corrected_conditional(P_dict/S_count) to the first and P_dict/steps to the second. The
      key "0" adds S_count/steps to the first, then adds the running first total to the
      second. A key missing from S_count raises KeyError, and a zero S_count or zero
      monte_steps raises ZeroDivisionError. */
  function LogicalErrorOf(keys: seq<string>, pDict: map<string, int>, sCount: map<string, int>,
                          monteSteps: int): (r: Result<(real, real)>)
    requires forall k :: k in keys ==> k in pDict
    ensures r.Err? ==> r.error == KeyError || r.error == ZeroDivisionError
  {
    if keys == [] then Ok((0.0, 0.0))
    else
      match LogicalErrorOf(keys[..|keys| - 1], pDict, sCount, monteSteps)
      case Err(e) => Err(e)
      case Ok(rates) => AddKey(rates, keys[|keys| - 1], pDict, sCount, monteSteps)
  }

  /** One pass of logical_error's loop: the rates after adding key `key` to `rates`. It raises
      KeyError for a key missing from S_count and ZeroDivisionError for a zero divisor. The key
      "0" adds the new corrected total to the uncorrected rate. Any other key, with
      0 <= P_dict <= S_count and positive monte_steps, raises the corrected rate by no more than
      it raises the uncorrected one, and never lowers it. */
  function AddKey(rates: (real, real), key: string, pDict: map<string, int>, sCount: map<string, int>,
                  monteSteps: int): (r: Result<(real, real)>)
    requires key in pDict
    ensures r.Err? <==> key !in sCount || monteSteps == 0 || (key != "0" && sCount[key] == 0)
    ensures r.Err? ==> (r.error == KeyError <==> key !in sCount)
    ensures r.Err? ==> r.error == KeyError || r.error == ZeroDivisionError
    ensures r.Ok? && key == "0" ==> r.value.1 == rates.1 + r.value.0
    ensures r.Ok? && key != "0" && 0 <= pDict[key] <= sCount[key] && monteSteps > 0 ==>
      rates.0 <= r.value.0 && r.value.0 - rates.0 <= r.value.1 - rates.1
  {
    var (logicalErr, noCorrError) := rates;
    if key !in sCount then Err(KeyError)
    else if key == "0" then
      if monteSteps == 0 then Err(ZeroDivisionError)
      else
        var logicalErr' := logicalErr + TrueDiv(sCount[key], monteSteps);
        Ok((logicalErr', noCorrError + logicalErr'))
    else if sCount[key] == 0 || monteSteps == 0 then Err(ZeroDivisionError)
    else
      var pErr := TrueDiv(pDict[key], sCount[key]);
      var pConfig := TrueDiv(sCount[key], monteSteps);
      var next := (logicalErr + Times(pConfig, CorrectedConditional(pErr)),
                   noCorrError + TrueDiv(pDict[key], monteSteps));
      if 0 <= pDict[key] <= sCount[key] && monteSteps > 0 then
        CorrectedTermBound(pDict[key], sCount[key], monteSteps);
        Ok(next)
      else Ok(next)
  }

  /** The rates after the keys up to i + 1 are those after the keys up to i, plus key i. */
  lemma LogicalErrorStep(keys: seq<string>, pDict: map<string, int>, sCount: map<string, int>,
                         monteSteps: int, i: nat)
    requires forall k :: k in keys ==> k in pDict
    requires i < |keys| && LogicalErrorOf(keys[..i], pDict, sCount, monteSteps).Ok?
    ensures LogicalErrorOf(keys[..i + 1], pDict, sCount, monteSteps) ==
      AddKey(LogicalErrorOf(keys[..i], pDict, sCount, monteSteps).value, keys[i], pDict, sCount, monteSteps)
  {
    assert keys[..i + 1][..i] == keys[..i];
  }

  /** Once the keys up to `i` fail, logical_error fails with that exception. */
  lemma {:induction false} LogicalErrorPrefixFails(keys: seq<string>, pDict: map<string, int>,
                                                   sCount: map<string, int>, monteSteps: int, i: nat)
    requires forall k :: k in keys ==> k in pDict
    requires i <= |keys| && LogicalErrorOf(keys[..i], pDict, sCount, monteSteps).Err?
    ensures LogicalErrorOf(keys, pDict, sCount, monteSteps) == LogicalErrorOf(keys[..i], pDict, sCount, monteSteps)
    decreases |keys| - i
  {
    if i < |keys| {
      assert keys[..i + 1][..i] == keys[..i];
      LogicalErrorPrefixFails(keys, pDict, sCount, monteSteps, i + 1);
    } else {
      assert keys[..i] == keys;
    }
  }

  /** logical_error: the loop over the keys of P_dict in insertion order, `keys`. */
  method LogicalError(keys: seq<string>, pDict: map<string, int>, sCount: map<string, int>, monteSteps: int)
    returns (r: Result<(real, real)>)
    requires Distinct(keys) && forall k :: k in pDict <==> k in keys
    ensures r == LogicalErrorOf(keys, pDict, sCount, monteSteps)
  {
    var rates := (0.0, 0.0);
    for i := 0 to |keys|
      invariant LogicalErrorOf(keys[..i], pDict, sCount, monteSteps) == Ok(rates)
    {
      LogicalErrorStep(keys, pDict, sCount, monteSteps, i);
      var next := AddRates(rates, keys[i], pDict, sCount, monteSteps);
      if next.Err? {
        LogicalErrorPrefixFails(keys, pDict, sCount, monteSteps, i + 1);
        return next;
      }
      rates := next.value;
    }
    assert keys[..|keys|] == keys;
    return Ok(rates);
  }

  /** The body of logical_error's loop for one key: the lookups, the divisions and the two
      running sums, raising as Python would. */
  method AddRates(rates: (real, real), theKey: string, pDict: map<string, int>, sCount: map<string, int>,
                  monteSteps: int) returns (r: Result<(real, real)>)
    requires theKey in pDict
    ensures r == AddKey(rates, theKey, pDict, sCount, monteSteps)
  {
    var (logicalErr, noCorrError) := rates;
    if theKey !in sCount {
      return Err(KeyError);
    }
    if theKey == "0" {
      if monteSteps == 0 {
        return Err(ZeroDivisionError);
      }
      logicalErr := logicalErr + TrueDiv(sCount[theKey], monteSteps);
      noCorrError := noCorrError + logicalErr;
    } else {
      if sCount[theKey] == 0 || monteSteps == 0 {
        return Err(ZeroDivisionError);
      }
      var pErr := TrueDiv(pDict[theKey], sCount[theKey]);
      var pErrCorr := CorrectedConditional(pErr);
      var pConfig := TrueDiv(sCount[theKey], monteSteps);
      logicalErr := logicalErr + Times(pConfig, pErrCorr);
      noCorrError := noCorrError + TrueDiv(pDict[theKey], monteSteps);
    }
    return Ok((logicalErr, noCorrError));
  }

  /** logical_error fails exactly when some key is missing from S_count, some non-"0" key has a
      zero count, or monte_steps is zero with at least one key. */
  lemma {:induction false} LogicalErrorFails(keys: seq<string>, pDict: map<string, int>,
                                             sCount: map<string, int>, monteSteps: int)
    requires forall k :: k in keys ==> k in pDict
    ensures var r := LogicalErrorOf(keys, pDict, sCount, monteSteps);
      r.Ok? <==> (keys == [] || monteSteps != 0) &&
                 forall k :: k in keys ==> k in sCount && (k != "0" ==> sCount[k] != 0)
  {
    if keys != [] {
      var init := keys[..|keys| - 1];
      assert keys == init + [keys[|keys| - 1]];
      LogicalErrorFails(init, pDict, sCount, monteSteps);
    }
  }

  /** One non-"0" key adds at most P/steps after correction, and nothing negative. */
  lemma CorrectedTermBound(p: int, c: int, steps: int)
    requires 0 <= p <= c && 0 < c && 0 < steps
    ensures 0.0 <= Times(TrueDiv(c, steps), CorrectedConditional(TrueDiv(p, c))) <= TrueDiv(p, steps)
  {
    var ratio, pConfig := TrueDiv(p, c), TrueDiv(c, steps);
    FractionBounds(p, c);
    FractionBounds(0, steps);
    var corrected := CorrectedConditional(ratio);
    ProductMonotone(pConfig, 0.0, corrected);
    ProductMonotone(pConfig, corrected, ratio);
    assert Times(pConfig, 0.0) == 0.0;
    FractionCancel(p, c, steps);
  }

  /** A fraction p/c with 0 <= p <= c is a probability; c/steps is positive. */
  lemma FractionBounds(p: int, c: int)
    requires 0 <= p <= c && 0 < c
    ensures 0.0 <= TrueDiv(p, c) <= 1.0
    ensures 0.0 < TrueDiv(c, c)
  {
    assert TrueDiv(c, c) == 1.0;
  }

  lemma ProductMonotone(a: real, x: real, y: real)
    requires 0.0 <= a && x <= y
    ensures Times(a, x) <= Times(a, y)
  {
    assert Times(a, y) - Times(a, x) == a * (y - x);
  }

  /** (c/steps) * (p/c) == p/steps. */
  lemma FractionCancel(p: int, c: int, steps: int)
    requires 0 < c && 0 < steps
    ensures Times(TrueDiv(c, steps), TrueDiv(p, c)) == TrueDiv(p, steps)
  {
    var x, y := TrueDiv(c, steps), TrueDiv(p, c);
    assert x * steps as real == c as real;
    assert y * c as real == p as real;
    assert x * y * steps as real == p as real;
  }

  /** With counts as S_count_P_cond produces them (0 <= P_dict[k] <= S_count[k], S_count[k] > 0)
      and monte_steps > 0, logical_error succeeds and 0 <= logical_err <= no_corr_error: the
      correction never raises the error rate. */
  lemma {:induction false} LogicalErrorBounds(keys: seq<string>, pDict: map<string, int>,
                                              sCount: map<string, int>, monteSteps: int)
    requires monteSteps > 0
    requires forall k :: k in keys ==> k in pDict && k in sCount && 0 <= pDict[k] <= sCount[k] && 0 < sCount[k]
    ensures LogicalErrorOf(keys, pDict, sCount, monteSteps).Ok?
    ensures var r := LogicalErrorOf(keys, pDict, sCount, monteSteps).value; 0.0 <= r.0 <= r.1
  {
    if keys != [] {
      var init := keys[..|keys| - 1];
      var key := keys[|keys| - 1];
      LogicalErrorBounds(init, pDict, sCount, monteSteps);
    }
  }

  /** Without the key "0", the rate without correction is the sum of P_dict over the keys,
      divided by monte_steps. */
  lemma {:induction false} NoCorrectionRate(keys: seq<string>, pDict: map<string, int>,
                                            sCount: map<string, int>, monteSteps: int)
    requires monteSteps > 0 && "0" !in keys
    requires forall k :: k in keys ==> k in pDict && k in sCount && 0 < sCount[k]
    ensures LogicalErrorOf(keys, pDict, sCount, monteSteps).Ok?
    ensures LogicalErrorOf(keys, pDict, sCount, monteSteps).value.1 == TrueDiv(SumAt(keys, pDict), monteSteps)
  {
    if keys != [] {
      var init := keys[..|keys| - 1];
      var key := keys[|keys| - 1];
      NoCorrectionRate(init, pDict, sCount, monteSteps);
      DivAdd(SumAt(init, pDict), pDict[key], monteSteps);
    }
  }

  lemma DivAdd(a: int, b: int, steps: int)
    requires steps != 0
    ensures TrueDiv(a, steps) + TrueDiv(b, steps) == TrueDiv(a + b, steps)
  {
  }

  /** On the dictionaries S_count_P_cond builds: both have the same keys, each key counts at
      most as many logical errors as samples and at least one sample, and the counts over the
      keys in first-seen order add up to the number of samples. */
  lemma {:induction false} CountsOfSamples(samples: seq<Sample>, measured: seq<string>, pDict: map<string, int>,
                                           sCount: map<string, int>)
    requires measured == FirstOccurrences(Keys(samples))
    requires forall k :: k in pDict <==> k in Keys(samples)
    requires forall k :: k in sCount <==> k in Keys(samples)
    requires forall k :: k in sCount ==> sCount[k] == Tally(samples, k, false)
    requires forall k :: k in pDict ==> pDict[k] == Tally(samples, k, true)
    ensures pDict.Keys == sCount.Keys
    ensures forall k :: k in sCount ==> 0 <= pDict[k] <= sCount[k] && 0 < sCount[k]
    ensures forall k :: k in measured ==> k in sCount
    ensures SumAt(measured, sCount) == |samples|
  {
    forall k | k in sCount
      ensures 0 <= pDict[k] <= sCount[k] && 0 < sCount[k]
    {
      TallyBounds(samples, k);
    }
    SumAtTallies(measured, sCount, samples, false);
    TalliesPartition(samples, false);
    TotalAll(samples);
  }

  /** From the samples to the error rates: on the dictionaries S_count_P_cond builds from
      measured syndromes, logical_error succeeds; the rate without correction is the fraction
      of samples whose logical value is -1, and the corrected rate lies between 0 and it. */
  lemma {:induction false} ErrorRatesOfSamples(samples: seq<Sample>, measured: seq<string>, pDict: map<string, int>,
                                               sCount: map<string, int>)
    requires |samples| > 0 && forall i :: 0 <= i < |samples| ==> IsSyndrome(samples[i].1)
    requires measured == FirstOccurrences(Keys(samples))
    requires forall k :: k in pDict <==> k in Keys(samples)
    requires forall k :: k in sCount <==> k in Keys(samples)
    requires forall k :: k in sCount ==> sCount[k] == Tally(samples, k, false)
    requires forall k :: k in pDict ==> pDict[k] == Tally(samples, k, true)
    ensures LogicalErrorOf(measured, pDict, sCount, |samples|).Ok?
    ensures var r := LogicalErrorOf(measured, pDict, sCount, |samples|).value;
      0.0 <= r.0 <= r.1 && r.1 == TrueDiv(Total(samples, true), |samples|)
  {
    forall k | k in measured
      ensures k in pDict && k in sCount && 0 <= pDict[k] <= sCount[k] && 0 < sCount[k]
    {
      TallyBounds(samples, k);
    }
    assert "0" !in measured by {
      forall i | 0 <= i < |samples| ensures Keys(samples)[i] != "0" {
        KeysAt(samples, i);
        ZeroKeyUnused(samples[i].1);
      }
    }
    LogicalErrorBounds(measured, pDict, sCount, |samples|);
    NoCorrectionRate(measured, pDict, sCount, |samples|);
    SumAtTallies(measured, pDict, samples, true);
    TalliesPartition(samples, true);
  }
}
