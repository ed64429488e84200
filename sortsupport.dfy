/**
 * Abbreviated-key sort support for mgid (inout.c): a per-sort state that
 * turns each identifier into a machine-word key and decides, from an
 * estimate of how many distinct keys it has seen, whether sorting on the
 * keys still pays off.
 */
module SortSupport {
  import opened Layout
  import opened Compare

  /** sizeof(Datum), fixed at 8: the key is built from this many leading bytes. */
  const DatumLen: nat := 8

  /** memtupcount and input_count must both reach this before any decision is taken. */
  const MinRows: int := 10000

  /** Above this many estimated distinct keys, estimation stops for good. */
  const EnoughDistinct: real := 100000.0

  function Pow256(n: nat): (p: nat)
    ensures p > 0
  {
    if n == 0 then 1 else 256 * Pow256(n - 1)
  }

  /** Scaling by a non-negative factor keeps order; the step from one byte position to the next. */
  lemma ScaleMonotone(x: nat, y: nat, p: nat)
    requires x <= y
    ensures x * p <= y * p && (x - 1) * p + p == x * p
  {
  }

  /** The unsigned integer whose big-endian bytes are bs: sum of bs[i] * 256^(|bs|-1-i). */
  function BigEndian(bs: seq<byte>): (n: nat)
    ensures n < Pow256(|bs|)
  {
    if bs == [] then 0
    else
      var p := Pow256(|bs| - 1);
      var rest := BigEndian(bs[1..]);
      ScaleMonotone(bs[0] as int + 1, 256, p);
      assert Pow256(|bs|) == 256 * p;
      assert bs[0] * p + rest < (bs[0] as int + 1) * p;
      bs[0] * p + rest
  }

  /**
   * The abbreviated key (mgid_abbrev_convert): the first DatumLen bytes
   * copied into a Datum and brought into native order, i.e. their big-endian
   * value, so that unsigned comparison of keys follows byte order.
   */
  function AbbrevKey(d: Mgid): (k: nat)
    ensures k < Pow256(DatumLen)
  {
    BigEndian(d[..DatumLen])
  }

  /** The key is the sum of data[i] * 256^(7-i) over the first eight bytes. */
  lemma AbbrevKeyDigits(d: Mgid)
    ensures AbbrevKey(d) == d[0] as int * 0x100000000000000 + d[1] as int * 0x1000000000000
                            + d[2] as int * 0x10000000000 + d[3] as int * 0x100000000
                            + d[4] as int * 0x1000000 + d[5] as int * 0x10000 + d[6] as int * 0x100 + d[7]
  {
    var w := d[..DatumLen];
    assert w[7..][1..] == [];
    assert BigEndian(w[7..]) == d[7];
    assert BigEndian(w[6..]) == d[6] as int * 0x100 + BigEndian(w[7..]);
    assert BigEndian(w[5..]) == d[5] as int * 0x10000 + BigEndian(w[6..]);
    assert BigEndian(w[4..]) == d[4] as int * 0x1000000 + BigEndian(w[5..]);
    assert BigEndian(w[3..]) == d[3] as int * 0x100000000 + BigEndian(w[4..]);
    assert BigEndian(w[2..]) == d[2] as int * 0x10000000000 + BigEndian(w[3..]);
    assert BigEndian(w[1..]) == d[1] as int * 0x1000000000000 + BigEndian(w[2..]);
    assert BigEndian(w) == d[0] as int * 0x100000000000000 + BigEndian(w[1..]);
  }

  /** The big-endian value is strictly monotone in the byte order. */
  lemma {:induction false} BigEndianMonotone(a: seq<byte>, b: seq<byte>)
    requires |a| == |b| && Precedes(a, b)
    ensures BigEndian(a) < BigEndian(b)
  {
    var k :| 0 <= k < |a| && a[..k] == b[..k] && a[k] < b[k];
    var p := Pow256(|a| - 1);
    if k == 0 {
      var ra, rb := BigEndian(a[1..]), BigEndian(b[1..]);
      ScaleMonotone(a[0] as int + 1, b[0], p);
      assert BigEndian(a) == a[0] * p + ra;
      assert BigEndian(b) == b[0] * p + rb;
    } else {
      assert a[0] == a[..k][0] == b[..k][0] == b[0];
      PrecedesTail(a, b);
      BigEndianMonotone(a[1..], b[1..]);
    }
  }

  /** Equal-length byte strings with the same big-endian value are equal. */
  lemma BigEndianInjective(a: seq<byte>, b: seq<byte>)
    requires |a| == |b|
    ensures BigEndian(a) == BigEndian(b) ==> a == b
  {
    if a != b {
      MemCmpSign(a, b);
      if Precedes(a, b) {
        BigEndianMonotone(a, b);
      } else {
        BigEndianMonotone(b, a);
      }
    }
  }

  /** A difference inside the key's prefix is a difference of the whole identifiers, in the same direction. */
  lemma PrefixPrecedes(a: Mgid, b: Mgid)
    requires Precedes(a[..DatumLen], b[..DatumLen])
    ensures Precedes(a, b)
  {
    var k :| 0 <= k < DatumLen && a[..DatumLen][..k] == b[..DatumLen][..k]
              && a[..DatumLen][k] < b[..DatumLen][k];
    assert a[..k] == a[..DatumLen][..k];
    assert b[..k] == b[..DatumLen][..k];
  }

  /** A smaller key means a smaller identifier: the sort may trust a key inequality. */
  lemma KeyLessImpliesCmpLess(a: Mgid, b: Mgid)
    requires AbbrevKey(a) < AbbrevKey(b)
    ensures InternalCmp(a, b) < 0
  {
    var pa, pb := a[..DatumLen], b[..DatumLen];
    MemCmpSign(pa, pb);
    if Precedes(pb, pa) {
      BigEndianMonotone(pb, pa);
    }
    PrefixPrecedes(a, b);
  }

  /** Keys never contradict the comparator: a <= b gives key(a) <= key(b). */
  lemma CmpOrderedKeys(a: Mgid, b: Mgid)
    requires InternalCmp(a, b) <= 0
    ensures AbbrevKey(a) <= AbbrevKey(b)
  {
    if AbbrevKey(b) < AbbrevKey(a) {
      KeyLessImpliesCmpLess(b, a);
    }
  }

  /** Two keys tie exactly when the identifiers share their first DatumLen bytes; only then is the full comparator needed. */
  lemma KeyEqualIff(a: Mgid, b: Mgid)
    ensures AbbrevKey(a) == AbbrevKey(b) <==> a[..DatumLen] == b[..DatumLen]
  {
    if AbbrevKey(a) == AbbrevKey(b) {
      BigEndianInjective(a[..DatumLen], b[..DatumLen]);
    }
  }

  /** What is fed to the cardinality estimator: the leading DatumLen bytes of an identifier. */
  type Sample = seq<byte>

  /**
   * The abstract value of mgid_sortsupport_state: input_count, estimating
   * and the samples that abbr_card has been fed.
   */
  datatype State = State(inputCount: int, estimating: bool, fed: seq<Sample>)

  /**
   * The state a sort starts from. The source has no routine that creates it;
   * a count of zero with estimation on is an assumption drawn from the field
   * comments ("number of non-null values seen", "true if estimating").
   */
  function Begin(): State
  {
    State(0, true, [])
  }

  /** The state change of mgid_abbrev_convert. */
  function ConvertStep(s: State, d: Mgid): State
  {
    State(s.inputCount + 1, s.estimating, if s.estimating then s.fed + [d[..DatumLen]] else s.fed)
  }

  /**
   * The decision and state change of mgid_abbrev_abort, given the
   * estimator's reading `card` of the samples fed so far.
   */
  function AbortStep(s: State, memtupcount: int, card: real): (r: (bool, State))
    ensures r.1.inputCount == s.inputCount && r.1.fed == s.fed
    ensures r.1.estimating ==> s.estimating
    ensures r.0 ==> s.estimating && r.1.estimating && memtupcount >= MinRows && s.inputCount >= MinRows
  {
    if memtupcount < MinRows || s.inputCount < MinRows || !s.estimating then (false, s)
    else if card > EnoughDistinct then (false, s.(estimating := false))
    else if card < s.inputCount as real / 2000.0 + 0.5 then (true, s)
    else (false, s)
  }

  /** Below MinRows rows in memory or values seen, or once estimation is off, nothing is aborted or changed. */
  lemma AbortGuard(s: State, memtupcount: int, card: real)
    requires memtupcount < MinRows || s.inputCount < MinRows || !s.estimating
    ensures AbortStep(s, memtupcount, card) == (false, s)
  {
  }

  /**
   * With at least MinRows values seen, an estimate below 5.5 distinct keys
   * always aborts: the threshold input_count/2000 + 0.5 is at least 5.5.
   */
  lemma LowCardinalityAborts(s: State, memtupcount: int, card: real)
    requires s.estimating && memtupcount >= MinRows && s.inputCount >= MinRows
    requires card < 5.5
    ensures AbortStep(s, memtupcount, card).0
  {
    assert s.inputCount as real / 2000.0 >= 5.0;
  }

  /** One call into the sort support, as the sort driver makes it. */
  datatype Call = Convert(d: Mgid) | Abort(memtupcount: int)

  function CountConverts(calls: seq<Call>): (n: nat)
    ensures n <= |calls|
  {
    if calls == [] then 0
    else (if calls[0].Convert? then 1 else 0) + CountConverts(calls[1..])
  }

  /**
   * The state after a sequence of calls, with the answers of the abort
   * calls in order; `estimate` stands for estimateHyperLogLog.
   */
  function Run(s: State, calls: seq<Call>, estimate: seq<Sample> -> real): (State, seq<bool>)
    decreases |calls|
  {
    if calls == [] then (s, [])
    else match calls[0]
      case Convert(d) => Run(ConvertStep(s, d), calls[1..], estimate)
      case Abort(m) =>
        var (abort, t) := AbortStep(s, m, estimate(s.fed));
        var (u, answers) := Run(t, calls[1..], estimate);
        (u, [abort] + answers)
  }

  /** Estimation never resumes: if it is on at the end, it was on at the start. */
  lemma {:induction false} EstimatingOnlyStops(s: State, calls: seq<Call>, estimate: seq<Sample> -> real)
    ensures Run(s, calls, estimate).0.estimating ==> s.estimating
    decreases |calls|
  {
    if calls != [] {
      match calls[0]
      case Convert(d) => EstimatingOnlyStops(ConvertStep(s, d), calls[1..], estimate);
      case Abort(m) => EstimatingOnlyStops(AbortStep(s, m, estimate(s.fed)).1, calls[1..], estimate);
    }
  }

  /** The count of values seen grows by exactly one per conversion, and the estimator never receives more samples than that. */
  lemma {:induction false} RunCounts(s: State, calls: seq<Call>, estimate: seq<Sample> -> real)
    ensures Run(s, calls, estimate).0.inputCount == s.inputCount + CountConverts(calls)
    ensures |Run(s, calls, estimate).0.fed| <= |s.fed| + CountConverts(calls)
    decreases |calls|
  {
    if calls != [] {
      match calls[0]
      case Convert(d) => RunCounts(ConvertStep(s, d), calls[1..], estimate);
      case Abort(m) => RunCounts(AbortStep(s, m, estimate(s.fed)).1, calls[1..], estimate);
    }
  }

  /**
   * Once estimation is off (the committed state) it stays off: no later
   * abort call answers true and no later conversion feeds the estimator.
   */
  lemma {:induction false} CommittedIsAbsorbing(s: State, calls: seq<Call>, estimate: seq<Sample> -> real)
    requires !s.estimating
    ensures !Run(s, calls, estimate).0.estimating
    ensures Run(s, calls, estimate).0.fed == s.fed
    ensures forall i | 0 <= i < |Run(s, calls, estimate).1| :: !Run(s, calls, estimate).1[i]
    decreases |calls|
  {
    if calls != [] {
      match calls[0]
      case Convert(d) => CommittedIsAbsorbing(ConvertStep(s, d), calls[1..], estimate);
      case Abort(m) => CommittedIsAbsorbing(AbortStep(s, m, estimate(s.fed)).1, calls[1..], estimate);
    }
  }

  /** mgid_sortsupport_state, updated in place by the two callbacks. */
  class MgidSortSupportState {
    /** input_count: number of non-null values seen */
    var inputCount: int
    /** estimating: true while cardinality is being estimated */
    var estimating: bool
    /** abbr_card: the estimator, represented by the samples it has been fed */
    var abbrCard: seq<Sample>
    /** estimateHyperLogLog: the estimator's reading of its samples */
    const estimate: seq<Sample> -> real

    function Snapshot(): State
      reads this
    {
      State(inputCount, estimating, abbrCard)
    }

    /** Starts a sort in Begin(); see Begin for why this is an assumption. */
    constructor (estimate: seq<Sample> -> real)
      ensures Snapshot() == Begin() && this.estimate == estimate
    {
      inputCount := 0;
      estimating := true;
      abbrCard := [];
      this.estimate := estimate;
    }

    /** mgid_abbrev_convert */
    method AbbrevConvert(original: Mgid) returns (res: nat)
      modifies this
      ensures res == AbbrevKey(original)
      ensures inputCount == old(inputCount) + 1
      ensures estimating == old(estimating)
      ensures abbrCard == if old(estimating) then old(abbrCard) + [original[..DatumLen]] else old(abbrCard)
      ensures Snapshot() == ConvertStep(old(Snapshot()), original)
    {
      var word := original[..DatumLen];
      inputCount := inputCount + 1;
      if estimating {
        abbrCard := abbrCard + [word];
      }
      res := BigEndian(word);
    }

    /** mgid_abbrev_abort */
    method AbbrevAbort(memtupcount: int) returns (abort: bool)
      modifies this
      ensures inputCount == old(inputCount) && abbrCard == old(abbrCard)
      ensures memtupcount < MinRows || old(inputCount) < MinRows || !old(estimating) ==>
                !abort && estimating == old(estimating)
      ensures memtupcount >= MinRows && old(inputCount) >= MinRows && old(estimating) ==>
                var card := estimate(old(abbrCard));
                (card > EnoughDistinct ==> !abort && !estimating) &&
                (card <= EnoughDistinct && card < old(inputCount) as real / 2000.0 + 0.5 ==> abort && estimating) &&
                (card <= EnoughDistinct && card >= old(inputCount) as real / 2000.0 + 0.5 ==> !abort && estimating)
      ensures (abort, Snapshot()) == AbortStep(old(Snapshot()), memtupcount, estimate(old(abbrCard)))
    {
      if memtupcount < MinRows || inputCount < MinRows || !estimating {
        return false;
      }
      var card := estimate(abbrCard);
      if card > EnoughDistinct {
        estimating := false;
        return false;
      }
      if card < inputCount as real / 2000.0 + 0.5 {
        return true;
      }
      return false;
    }
  }
}
