/** The column pickers of tools/emit_json.py: `pick_bank_col`,
    `pick_credit_col` and `pick_debit_col`. Each keeps the column labels that
    pass a substring test and takes the first one after a stable sort. */
module Pickers {
  import opened Wrappers
  import opened Text
  import opened Errors

  /** Which of the three pickers. */
  datatype Picker = BankPicker | CreditPicker | DebitPicker

  /** The markers the card pickers look for. */
  function Keys(p: Picker): seq<string> {
    match p
    case BankPicker => []
    case CreditPicker => ["credit card", "credit cards"]
    case DebitPicker => ["debit card", "debit cards"]
  }

  /** `any(k in c for k in keys)` */
  predicate AnyKey(c: string, keys: seq<string>) {
    exists i :: 0 <= i < |keys| && Contains(c, keys[i])
  }

  /** The label passes the picker's filter (the list comprehension). */
  predicate IsCandidate(p: Picker, c: string) {
    match p
    case BankPicker =>
      Contains(c, "bank name") || Contains(c, "name of the bank") || Strip(c) == "bank"
    case _ => AnyKey(c, Keys(p))
  }

  /** A sort key; larger is preferred. */
  datatype Rank = Rank(hasKey: nat, hasOutstanding: nat, negLen: int)

  /** Strict lexicographic order on sort keys. */
  predicate Below(x: Rank, y: Rank) {
    x.hasKey < y.hasKey ||
    (x.hasKey == y.hasKey && x.hasOutstanding < y.hasOutstanding) ||
    (x.hasKey == y.hasKey && x.hasOutstanding == y.hasOutstanding && x.negLen < y.negLen)
  }

  /** The sort key of a label. The bank picker sorts ascending by length,
      which is descending by negated length; the card pickers sort
      descending by `(has key, has "outstanding", -len)` on the lower-cased
      label. */
  function RankOf(p: Picker, c: string): Rank {
    match p
    case BankPicker => Rank(0, 0, -|c|)
    case _ =>
      Rank(if AnyKey(Lower(c), Keys(p)) then 1 else 0,
           if Contains(Lower(c), "outstanding") then 1 else 0,
           -|c|)
  }

  /** Among the positions marked in `ok`, one of greatest rank, and the
      earliest of those: the element a stable descending sort puts first. */
  function FirstGreatest(ok: seq<bool>, ranks: seq<Rank>): (r: Option<nat>)
    requires |ok| == |ranks|
    ensures r.Some? ==> r.value < |ok| && ok[r.value]
    ensures r.None? <==> forall k :: 0 <= k < |ok| ==> !ok[k]
    ensures r.Some? ==> forall k :: 0 <= k < |ok| && ok[k] ==> !Below(ranks[r.value], ranks[k])
    ensures r.Some? ==> forall k :: 0 <= k < r.value && ok[k] ==> Below(ranks[k], ranks[r.value])
  {
    if ok == [] then None
    else
      var n := |ok| - 1;
      var b := FirstGreatest(ok[..n], ranks[..n]);
      assert forall k :: 0 <= k < n ==> ok[..n][k] == ok[k] && ranks[..n][k] == ranks[k];
      if ok[n] && (b.None? || Below(ranks[b.value], ranks[n]))
      then Some(n)
      else b
  }

  /** The index of the label a stable sort puts first: among the candidates,
      one of greatest rank, and the earliest of those. */
  function Best(p: Picker, cols: seq<string>): (r: Option<nat>)
    ensures r.Some? ==> r.value < |cols| && IsCandidate(p, cols[r.value])
    ensures r.None? <==> forall k :: 0 <= k < |cols| ==> !IsCandidate(p, cols[k])
    ensures r.Some? ==> forall k :: 0 <= k < |cols| && IsCandidate(p, cols[k]) ==>
      !Below(RankOf(p, cols[r.value]), RankOf(p, cols[k]))
    ensures r.Some? ==> forall k :: 0 <= k < r.value && IsCandidate(p, cols[k]) ==>
      Below(RankOf(p, cols[k]), RankOf(p, cols[r.value]))
  {
    var ok := seq(|cols|, k requires 0 <= k < |cols| => IsCandidate(p, cols[k]));
    var ranks := seq(|cols|, k requires 0 <= k < |cols| => RankOf(p, cols[k]));
    assert forall k :: 0 <= k < |cols| ==> ok[k] == IsCandidate(p, cols[k]) && ranks[k] == RankOf(p, cols[k]);
    FirstGreatest(ok, ranks)
  }

  /** The error each picker raises when nothing qualifies. */
  function NotFound(p: Picker): ExtractError {
    match p
    case BankPicker => BankColumnNotFound
    case CreditPicker => CreditColumnNotFound
    case DebitPicker => DebitColumnNotFound
  }

  /** `pick_bank_col`, `pick_credit_col`, `pick_debit_col`. */
  function Pick(p: Picker, cols: seq<string>): (r: Result<string, ExtractError>)
    ensures r.Ok? ==> r.value in cols && IsCandidate(p, r.value)
    ensures r.Err? <==> forall k :: 0 <= k < |cols| ==> !IsCandidate(p, cols[k])
    ensures r.Err? ==> r.error == NotFound(p)
  {
    match Best(p, cols)
    case None => Err(NotFound(p))
    case Some(i) => Ok(cols[i])
  }

  /** `pick_bank_col` takes the shortest label naming the bank, the earliest
      among equally short ones. */
  lemma BankPickShortestEarliest(cols: seq<string>, i: nat)
    requires Best(BankPicker, cols) == Some(i)
    ensures Contains(cols[i], "bank name") || Contains(cols[i], "name of the bank") || Strip(cols[i]) == "bank"
    ensures forall k :: 0 <= k < |cols| && IsCandidate(BankPicker, cols[k]) ==> |cols[i]| <= |cols[k]|
    ensures forall k :: 0 <= k < i && IsCandidate(BankPicker, cols[k]) ==> |cols[i]| < |cols[k]|
  {
  }

  /** The plural marker adds nothing: a label containing "credit cards" or
      "debit cards" already contains the singular. */
  lemma PluralKeyRedundant(c: string, stem: string)
    requires Contains(c, stem + "s")
    ensures Contains(c, stem)
  {
    var k: nat :| k <= |c| && MatchAt(c, stem + "s", k);
    assert c[k..k + |stem|] == (stem + "s")[..|stem|];
    assert MatchAt(c, stem, k);
  }

  /** Every candidate of a card picker has the key in its lower-cased form
      too, so the first sort component is 1 throughout. */
  lemma CandidateHasKey(p: Picker, c: string)
    requires p != BankPicker && IsCandidate(p, c)
    ensures RankOf(p, c).hasKey == 1
  {
    var i :| 0 <= i < |Keys(p)| && Contains(c, Keys(p)[i]);
    ContainsLower(c, Keys(p)[i]);
  }

  /** Both labels mention "outstanding", or neither does. */
  predicate SameOutstanding(a: string, b: string) {
    Contains(Lower(a), "outstanding") == Contains(Lower(b), "outstanding")
  }

  /** `pick_credit_col` and `pick_debit_col`: the label holds the singular
      marker; it mentions "outstanding" whenever some candidate does; among
      the candidates that agree with it on "outstanding" it is the shortest,
      and the earliest of the equally short. */
  lemma CardPickSpec(p: Picker, cols: seq<string>, i: nat)
    requires p != BankPicker && Best(p, cols) == Some(i)
    ensures Contains(cols[i], Keys(p)[0])
    ensures (exists k :: 0 <= k < |cols| && IsCandidate(p, cols[k]) && Contains(Lower(cols[k]), "outstanding")) ==>
      Contains(Lower(cols[i]), "outstanding")
    ensures forall k :: 0 <= k < |cols| && IsCandidate(p, cols[k]) && SameOutstanding(cols[k], cols[i]) ==>
      |cols[i]| <= |cols[k]|
    ensures forall k :: 0 <= k < i && IsCandidate(p, cols[k]) && SameOutstanding(cols[k], cols[i]) ==>
      |cols[i]| < |cols[k]|
  {
    var j :| 0 <= j < |Keys(p)| && Contains(cols[i], Keys(p)[j]);
    if j == 1 {
      assert Keys(p)[1] == Keys(p)[0] + "s";
      PluralKeyRedundant(cols[i], Keys(p)[0]);
    }
    forall k | 0 <= k < |cols| && IsCandidate(p, cols[k]) {
      CandidateHasKey(p, cols[k]);
    }
    CandidateHasKey(p, cols[i]);
  }
}
