/** The population features of a wallet or group view: one pass of counters and lists, proved to
    compute sums over the operations, so that they depend on the history only as a collection. */
module PopulationFeatures {
  import opened Common
  import opened GroupHistory
  import opened Statistics

  // ----- Sums over operations -----

  function Count(ops: seq<Op>, p: Op -> bool): nat {
    if ops == [] then 0 else Count(ops[..|ops| - 1], p) + if p(ops[|ops| - 1]) then 1 else 0
  }

  function Total(ops: seq<Op>, f: Op -> real): real {
    if ops == [] then 0.0 else Total(ops[..|ops| - 1], f) + f(ops[|ops| - 1])
  }

  lemma {:induction false} TotalRemove(ops: seq<Op>, i: nat, p: Op -> bool, f: Op -> real)
    requires i < |ops|
    ensures Count(ops, p) == Count(ops[..i] + ops[i + 1..], p) + if p(ops[i]) then 1 else 0
    ensures Total(ops, f) == Total(ops[..i] + ops[i + 1..], f) + f(ops[i])
    decreases |ops|
  {
    var last := |ops| - 1;
    if i == last {
      assert ops[..i] + ops[i + 1..] == ops[..last];
    } else {
      var rest := ops[..i] + ops[i + 1..];
      TotalRemove(ops[..last], i, p, f);
      assert rest[..|rest| - 1] == ops[..last][..i] + ops[..last][i + 1..];
    }
  }

  lemma LastOccurs(a: seq<Op>, b: seq<Op>) returns (i: nat)
    requires multiset(a) == multiset(b) && a != []
    ensures i < |b| && b[i] == a[|a| - 1]
  {
    assert a[|a| - 1] in multiset(a);
    i :| 0 <= i < |b| && b[i] == a[|a| - 1];
  }

  lemma Without(s: seq<Op>, i: nat)
    requires i < |s|
    ensures multiset(s[..i] + s[i + 1..]) == multiset(s) - multiset{s[i]}
  {
    assert s == s[..i] + [s[i]] + s[i + 1..];
  }

  lemma RemovedFromBoth(a: seq<Op>, b: seq<Op>, i: nat)
    requires multiset(a) == multiset(b) && a != [] && i < |b| && b[i] == a[|a| - 1]
    ensures multiset(a[..|a| - 1]) == multiset(b[..i] + b[i + 1..])
  {
    Without(a, |a| - 1);
    assert a[..|a| - 1] + a[|a|..] == a[..|a| - 1];
    Without(b, i);
  }

  /** Counts and totals do not depend on the order of the operations. */
  lemma {:induction false} OrderDoesNotMatter(a: seq<Op>, b: seq<Op>, p: Op -> bool, f: Op -> real)
    requires multiset(a) == multiset(b)
    ensures Count(a, p) == Count(b, p) && Total(a, f) == Total(b, f)
    decreases |a|
  {
    if a == [] {
      assert |multiset(b)| == 0;
    } else {
      var i := LastOccurs(a, b);
      TotalRemove(b, i, p, f);
      RemovedFromBoth(a, b, i);
      OrderDoesNotMatter(a[..|a| - 1], b[..i] + b[i + 1..], p, f);
    }
  }

  // ----- Classifying operations -----

  const PAYMENTS: set<Text> := {"payment", "path_payment_strict_receive", "path_payment_strict_send"}
  const OFFERS: set<Text> := {"manage_sell_offer", "manage_buy_offer", "create_passive_sell_offer"}

  function Truthy(t: Option<Text>): bool {
    t.Some? && t.value != ""
  }

  function Sender(op: Op): Option<Text> {
    if Truthy(op.payer) then op.payer else op.source
  }

  function IsSelf(self: set<Text>, t: Option<Text>): bool {
    t.Some? && t.value in self
  }

  function IsPayment(op: Op): bool { op.kind in PAYMENTS }
  function IsPathPayment(op: Op): bool { op.kind in PAYMENTS && op.kind != "payment" }
  function IsOffer(op: Op): bool { op.kind in OFFERS }
  function IsChangeTrust(op: Op): bool { op.kind == "change_trust" }
  function IsCreateAccount(op: Op): bool { op.kind == "create_account" }
  function IsAccountMerge(op: Op): bool { op.kind == "account_merge" }
  function IsSetOptions(op: Op): bool { op.kind == "set_options" }
  function IsFailed(op: Op): bool { !op.successful }

  function IsNative(op: Op): bool {
    var asset := if Truthy(op.assetType) then op.assetType else op.sourceAssetType;
    !Truthy(asset) || asset.value == "native"
  }

  /** A payment out of the group, into it, or neither. */
  function Sent(self: set<Text>): Op -> bool {
    (op: Op) => IsPayment(op) && IsSelf(self, Sender(op)) && Truthy(op.payee) && !IsSelf(self, op.payee)
  }

  function Received(self: set<Text>): Op -> bool {
    (op: Op) => IsPayment(op) && IsSelf(self, op.payee) && Truthy(Sender(op)) && !IsSelf(self, Sender(op))
  }

  /** Inside the group, wholly outside it, or with the other side missing. */
  function Uncounted(self: set<Text>): Op -> bool {
    (op: Op) => IsPayment(op)
          && (|| (IsSelf(self, Sender(op)) && IsSelf(self, op.payee))
              || (!IsSelf(self, Sender(op)) && !IsSelf(self, op.payee))
              || (IsSelf(self, Sender(op)) && !Truthy(op.payee))
              || (IsSelf(self, op.payee) && !Truthy(Sender(op))))
  }

  function NativeSent(self: set<Text>): Op -> bool {
    (op: Op) => Sent(self)(op) && IsNative(op)
  }

  function AmountIf(p: Op -> bool): Op -> real {
    (op: Op) => if p(op) then op.amount else 0.0
  }

  function Square(x: real): real { x * x }

  function SquareIf(p: Op -> bool, mean: real): Op -> real {
    (op: Op) => if p(op) then Square(op.amount - mean) else 0.0
  }

  function DayOf(time: int): int { time / 86400 }

  function OnDay(day: int): Op -> bool {
    (op: Op) => op.createdAt.Some? && DayOf(op.createdAt.value) == day
  }

  function IsTrustline(b: Balance): bool {
    b.assetType != Some("native") && b.assetType != Some("liquidity_pool_shares")
  }

  // ----- What is extracted -----

  /** One side's payment statistics.  The variance stands for its square root. */
  datatype Side = Side(n: nat, total: real, mean: real, variance: real, max: real, parties: set<Text>)

  datatype Features = Features(
    operations: nat, payments: nat, offers: nat, changeTrust: nat, pathPayment: nat, createAccount: nat,
    accountMerge: nat, setOptions: nat, kinds: set<Text>, assets: set<(Option<Text>, Option<Text>)>, trustlines: nat,
    ageDays: real, recencyDays: real, days: map<int, nat>,
    sent: Side, received: Side, nativeSendRatio: real, failedRatio: real)

  function Div(n: nat, d: nat): real {
    if d == 0 then 0.0 else n as real / d as real
  }

  function PerItem(total: real, n: nat): real {
    if n == 0 then 0.0 else total / n as real
  }

  ghost function AmountsOf(ops: seq<Op>, p: Op -> bool): set<real> {
    set op | op in ops && p(op) :: op.amount
  }

  /** The largest of the values, or 0.0 of none. */
  ghost predicate IsLargest(values: set<real>, max: real) {
    if values == {} then max == 0.0 else max in values && forall x :: x in values ==> x <= max
  }

  ghost predicate IsSide(ops: seq<Op>, p: Op -> bool, parties: set<Text>, s: Side) {
    && s.n == Count(ops, p) && s.total == Total(ops, AmountIf(p))
    && s.mean == PerItem(s.total, s.n)
    && s.variance == PerItem(Total(ops, SquareIf(p, s.mean)), s.n)
    && IsLargest(AmountsOf(ops, p), s.max)
    && s.parties == parties
  }

  ghost function Payees(ops: seq<Op>, self: set<Text>): set<Text> {
    set op | op in ops && Sent(self)(op) :: op.payee.value
  }

  ghost function Payers(ops: seq<Op>, self: set<Text>): set<Text> {
    set op | op in ops && Received(self)(op) :: Sender(op).value
  }

  function DaysBetween(earlier: int, later: int): real {
    if later < earlier then 0.0 else (later - earlier) as real / 86400.0
  }

  ghost function TimesOf(ops: seq<Op>): set<int> {
    set op | op in ops && op.createdAt.Some? :: op.createdAt.value
  }

  /** Days from the earliest dated operation to the reference time, and from the latest. */
  ghost predicate IsAge(times: set<int>, reference: int, age: real) {
    if times == {} then age == 0.0
    else exists first :: first in times && age == DaysBetween(first, reference) && forall t :: t in times ==> first <= t
  }

  ghost predicate IsRecency(times: set<int>, reference: int, recency: real) {
    if times == {} then recency == 0.0
    else exists last :: last in times && recency == DaysBetween(last, reference) && forall t :: t in times ==> t <= last
  }

  /** The days with a dated operation, each with how many. */
  ghost predicate IsDays(ops: seq<Op>, days: map<int, nat>) {
    && (forall d :: d in days <==> Count(ops, OnDay(d)) > 0)
    && (forall d :: d in days ==> days[d] == Count(ops, OnDay(d)))
  }

  function Trustlines(balances: seq<Balance>): seq<Balance> {
    if balances == [] then []
    else
      var last := balances[|balances| - 1];
      Trustlines(balances[..|balances| - 1]) + if IsTrustline(last) then [last] else []
  }

  ghost function Assets(balances: seq<Balance>): set<(Option<Text>, Option<Text>)> {
    set b | b in Trustlines(balances) :: (b.assetCode, b.assetIssuer)
  }

  ghost function KindsOf(ops: seq<Op>): set<Text> {
    set op | op in ops && op.kind != "" :: op.kind
  }

  ghost predicate IsCounts(ops: seq<Op>, f: Features) {
    && f.operations == |ops|
    && f.payments == Count(ops, IsPayment) && f.pathPayment == Count(ops, IsPathPayment)
    && f.offers == Count(ops, IsOffer) && f.changeTrust == Count(ops, IsChangeTrust)
    && f.createAccount == Count(ops, IsCreateAccount) && f.accountMerge == Count(ops, IsAccountMerge)
    && f.setOptions == Count(ops, IsSetOptions)
    && f.kinds == KindsOf(ops)
    && f.failedRatio == Div(Count(ops, IsFailed), |ops|)
  }

  /** The features of a history seen by the addresses `self` at the reference time. */
  ghost predicate IsFeatures(ops: seq<Op>, balances: seq<Balance>, self: set<Text>, reference: int, f: Features) {
    && IsCounts(ops, f)
    && f.trustlines == |Trustlines(balances)| && f.assets == Assets(balances)
    && IsAge(TimesOf(ops), reference, f.ageDays) && IsRecency(TimesOf(ops), reference, f.recencyDays) && IsDays(ops, f.days)
    && IsSide(ops, Sent(self), Payees(ops, self), f.sent)
    && IsSide(ops, Received(self), Payers(ops, self), f.received)
    && f.nativeSendRatio == Div(Count(ops, NativeSent(self)), Count(ops, Sent(self)))
  }

  // ----- The lists of the loop -----

  function Amounts(ops: seq<Op>, p: Op -> bool): seq<real> {
    if ops == [] then []
    else
      var last := ops[|ops| - 1];
      Amounts(ops[..|ops| - 1], p) + if p(last) then [last.amount] else []
  }

  function SumOfSquares(values: seq<real>, mean: real): real {
    if values == [] then 0.0 else SumOfSquares(values[..|values| - 1], mean) + Square(values[|values| - 1] - mean)
  }

  ghost function Elements<T>(values: seq<T>): set<T> {
    set x | x in values
  }

  lemma SumAppend(values: seq<real>, x: real, mean: real)
    ensures Sum(values + [x]) == Sum(values) + x
    ensures SumOfSquares(values + [x], mean) == SumOfSquares(values, mean) + Square(x - mean)
    ensures Elements(values + [x]) == Elements(values) + {x}
  {
    assert (values + [x])[..|values|] == values;
  }

  lemma {:induction false} AmountsSum(ops: seq<Op>, p: Op -> bool, mean: real)
    ensures |Amounts(ops, p)| == Count(ops, p)
    ensures Sum(Amounts(ops, p)) == Total(ops, AmountIf(p))
    ensures SumOfSquares(Amounts(ops, p), mean) == Total(ops, SquareIf(p, mean))
    ensures Elements(Amounts(ops, p)) == AmountsOf(ops, p)
  {
    if ops != [] {
      var front, last := ops[..|ops| - 1], ops[|ops| - 1];
      AmountsSum(front, p, mean);
      assert ops == front + [last];
      if p(last) {
        SumAppend(Amounts(front, p), last.amount, mean);
        assert AmountsOf(ops, p) == AmountsOf(front, p) + {last.amount};
      } else {
        assert Amounts(ops, p) == Amounts(front, p);
        assert AmountsOf(ops, p) == AmountsOf(front, p);
      }
    }
  }

  method TotalAndMax(values: seq<real>) returns (total: real, max: real)
    ensures total == Sum(values) && IsLargest(Elements(values), max)
  {
    total, max := 0.0, 0.0;
    for i := 0 to |values|
      invariant total == Sum(values[..i]) && IsLargest(Elements(values[..i]), max)
    {
      assert values[..i + 1] == values[..i] + [values[i]];
      SumAppend(values[..i], values[i], 0.0);
      assert if i == 0 then values[..i] == [] else values[0] in Elements(values[..i]);
      total := total + values[i];
      if i == 0 || values[i] > max { max := values[i]; }
    }
    assert values[..|values|] == values;
  }

  method SquaresAbout(values: seq<real>, mean: real) returns (squares: real)
    ensures squares == SumOfSquares(values, mean)
  {
    squares := 0.0;
    for i := 0 to |values|
      invariant squares == SumOfSquares(values[..i], mean)
    {
      assert values[..i + 1][..i] == values[..i];
      squares := squares + Square(values[i] - mean);
    }
    assert values[..|values|] == values;
  }

  /** `sum`, `_mean`, `_max` and, up to its square root, `_std`. */
  method Summarize(values: seq<real>) returns (total: real, mean: real, variance: real, max: real)
    ensures total == Sum(values) && mean == PerItem(total, |values|)
    ensures variance == PerItem(SumOfSquares(values, mean), |values|)
    ensures IsLargest(Elements(values), max)
  {
    total, max := TotalAndMax(values);
    mean := PerItem(total, |values|);
    var squares := SquaresAbout(values, mean);
    variance := PerItem(squares, |values|);
  }

  method SideOf(ghost ops: seq<Op>, ghost p: Op -> bool, values: seq<real>, parties: set<Text>) returns (s: Side)
    requires values == Amounts(ops, p)
    ensures IsSide(ops, p, parties, s)
  {
    var total, mean, variance, max := Summarize(values);
    AmountsSum(ops, p, mean);
    s := Side(|values|, total, mean, variance, max, parties);
  }

  // ----- Extraction -----

  lemma Append(front: seq<Op>, op: Op)
    ensures forall p: Op -> bool :: Count(front + [op], p) == Count(front, p) + if p(op) then 1 else 0
    ensures forall p: Op -> bool :: Amounts(front + [op], p) == Amounts(front, p) + if p(op) then [op.amount] else []
  {
    assert (front + [op])[..|front|] == front;
  }

  lemma AppendToSets(front: seq<Op>, op: Op, self: set<Text>)
    ensures KindsOf(front + [op]) == KindsOf(front) + if op.kind != "" then {op.kind} else {}
    ensures TimesOf(front + [op]) == TimesOf(front) + if op.createdAt.Some? then {op.createdAt.value} else {}
    ensures Payees(front + [op], self) == Payees(front, self) + if Sent(self)(op) then {op.payee.value} else {}
    ensures Payers(front + [op], self) == Payers(front, self) + if Received(self)(op) then {Sender(op).value} else {}
  {
    assert forall o :: o in front + [op] <==> o in front || o == op;
  }

  lemma DaysStep(front: seq<Op>, op: Op, days: map<int, nat>)
    requires IsDays(front, days)
    ensures op.createdAt.None? ==> IsDays(front + [op], days)
    ensures op.createdAt.Some? ==>
              var d := DayOf(op.createdAt.value); IsDays(front + [op], days[d := (if d in days then days[d] else 0) + 1])
  {
    Append(front, op);
  }

  method Ages(times: seq<int>, reference: int) returns (age: real, recency: real)
    ensures IsAge(Elements(times), reference, age) && IsRecency(Elements(times), reference, recency)
  {
    if times == [] { return 0.0, 0.0; }
    var first, last := times[0], times[0];
    for i := 0 to |times|
      invariant first in times && last in times
      invariant forall k :: 0 <= k < i ==> first <= times[k] <= last
    {
      if times[i] < first { first := times[i]; }
      if times[i] > last { last := times[i]; }
    }
    assert first in Elements(times) && last in Elements(times);
    age, recency := DaysBetween(first, reference), DaysBetween(last, reference);
  }

  method CountTrustlines(balances: seq<Balance>) returns (n: nat, assets: set<(Option<Text>, Option<Text>)>)
    ensures n == |Trustlines(balances)| && assets == Assets(balances)
  {
    n, assets := 0, {};
    for i := 0 to |balances|
      invariant n == |Trustlines(balances[..i])| && assets == Assets(balances[..i])
    {
      assert balances[..i + 1][..i] == balances[..i];
      if IsTrustline(balances[i]) {
        n := n + 1;
        assets := assets + {(balances[i].assetCode, balances[i].assetIssuer)};
      }
    }
    assert balances[..|balances|] == balances;
  }

  /** The payment lists of the loop. */
  datatype Flows = Flows(sent: seq<real>, received: seq<real>, payees: set<Text>, payers: set<Text>, native: nat)

  ghost predicate IsFlows(ops: seq<Op>, self: set<Text>, w: Flows) {
    && w.sent == Amounts(ops, Sent(self)) && w.received == Amounts(ops, Received(self))
    && w.payees == Payees(ops, self) && w.payers == Payers(ops, self)
    && w.native == Count(ops, NativeSent(self))
  }

  method AddPayment(ghost front: seq<Op>, op: Op, self: set<Text>, w: Flows) returns (w': Flows)
    requires IsFlows(front, self, w) && IsPayment(op)
    ensures IsFlows(front + [op], self, w')
  {
    Append(front, op);
    AppendToSets(front, op, self);
    var sender := Sender(op);
    w' := w;
    if IsSelf(self, sender) && Truthy(op.payee) && !IsSelf(self, op.payee) {
      w' := w'.(sent := w.sent + [op.amount], payees := w.payees + {op.payee.value});
      if IsNative(op) { w' := w'.(native := w.native + 1); }
    } else if IsSelf(self, op.payee) && Truthy(sender) && !IsSelf(self, sender) {
      w' := w'.(received := w.received + [op.amount], payers := w.payers + {sender.value});
    }
  }

  lemma OtherKeepsFlows(front: seq<Op>, op: Op, self: set<Text>, w: Flows)
    requires IsFlows(front, self, w) && !IsPayment(op)
    ensures IsFlows(front + [op], self, w)
  {
    Append(front, op);
    AppendToSets(front, op, self);
  }

  /** The counters of the loop. */
  datatype Tally = Tally(payments: nat, pathPayment: nat, offers: nat, changeTrust: nat, createAccount: nat, accountMerge: nat, setOptions: nat)

  ghost predicate IsTally(ops: seq<Op>, t: Tally) {
    && t.payments == Count(ops, IsPayment) && t.pathPayment == Count(ops, IsPathPayment)
    && t.offers == Count(ops, IsOffer) && t.changeTrust == Count(ops, IsChangeTrust)
    && t.createAccount == Count(ops, IsCreateAccount) && t.accountMerge == Count(ops, IsAccountMerge)
    && t.setOptions == Count(ops, IsSetOptions)
  }

  method AddKind(ghost front: seq<Op>, op: Op, t: Tally) returns (t': Tally)
    requires IsTally(front, t)
    ensures IsTally(front + [op], t')
  {
    Append(front, op);
    t' := t;
    if op.kind in PAYMENTS {
      t' := t'.(payments := t.payments + 1);
      if op.kind != "payment" { t' := t'.(pathPayment := t.pathPayment + 1); }
    } else if op.kind in OFFERS {
      t' := t'.(offers := t.offers + 1);
    } else if op.kind == "change_trust" {
      t' := t'.(changeTrust := t.changeTrust + 1);
    } else if op.kind == "create_account" {
      t' := t'.(createAccount := t.createAccount + 1);
    } else if op.kind == "account_merge" {
      t' := t'.(accountMerge := t.accountMerge + 1);
    } else if op.kind == "set_options" {
      t' := t'.(setOptions := t.setOptions + 1);
    }
  }

  /** The remaining state of the loop: how many succeeded, the operation types, the dates. */
  datatype Seen = Seen(successful: nat, kinds: set<Text>, times: seq<int>, days: map<int, nat>)

  ghost predicate IsDated(ops: seq<Op>, times: seq<int>, days: map<int, nat>) {
    Elements(times) == TimesOf(ops) && IsDays(ops, days)
  }

  ghost predicate IsSeen(ops: seq<Op>, s: Seen) {
    && s.successful + Count(ops, IsFailed) == |ops|
    && s.kinds == KindsOf(ops)
    && IsDated(ops, s.times, s.days)
  }

  method AddDate(ghost front: seq<Op>, op: Op, times: seq<int>, days: map<int, nat>) returns (times': seq<int>, days': map<int, nat>)
    requires IsDated(front, times, days)
    ensures IsDated(front + [op], times', days')
  {
    AppendToSets(front, op, {});
    DaysStep(front, op, days);
    times', days' := times, days;
    if op.createdAt.Some? {
      var day := DayOf(op.createdAt.value);
      times' := times + [op.createdAt.value];
      days' := days[day := (if day in days then days[day] else 0) + 1];
      assert Elements(times') == Elements(times) + {op.createdAt.value};
    }
  }

  method AddSeen(ghost front: seq<Op>, op: Op, s: Seen) returns (s': Seen)
    requires IsSeen(front, s)
    ensures IsSeen(front + [op], s')
  {
    var times, days := AddDate(front, op, s.times, s.days);
    AppendToSets(front, op, {});
    assert (front + [op])[..|front|] == front;
    s' := Seen(if op.successful then s.successful + 1 else s.successful, if op.kind != "" then s.kinds + {op.kind} else s.kinds, times, days);
  }

  /** One pass over the operations, then the summaries. */
  method Extract(ops: seq<Op>, balances: seq<Balance>, self: set<Text>, reference: int) returns (f: Features)
    ensures IsFeatures(ops, balances, self, reference, f)
  {
    var seen, tally, flows := Seen(0, {}, [], map[]), Tally(0, 0, 0, 0, 0, 0, 0), Flows([], [], {}, {}, 0);
    for i := 0 to |ops|
      invariant IsSeen(ops[..i], seen) && IsTally(ops[..i], tally) && IsFlows(ops[..i], self, flows)
    {
      assert ops[..i + 1] == ops[..i] + [ops[i]];
      seen := AddSeen(ops[..i], ops[i], seen);
      tally := AddKind(ops[..i], ops[i], tally);
      if ops[i].kind in PAYMENTS {
        flows := AddPayment(ops[..i], ops[i], self, flows);
      } else {
        OtherKeepsFlows(ops[..i], ops[i], self, flows);
      }
    }
    assert ops[..|ops|] == ops;
    var trustlines, assets := CountTrustlines(balances);
    var age, recency := Ages(seen.times, reference);
    var sent := SideOf(ops, Sent(self), flows.sent, flows.payees);
    var received := SideOf(ops, Received(self), flows.received, flows.payers);
    AmountsSum(ops, Sent(self), 0.0);
    f := Features(|ops|, tally.payments, tally.offers, tally.changeTrust, tally.pathPayment, tally.createAccount, tally.accountMerge,
                  tally.setOptions, seen.kinds, assets, trustlines, age, recency, seen.days, sent, received,
                  Div(flows.native, |flows.sent|), Div(|ops| - seen.successful, |ops|));
  }

  // ----- What the features say -----

  /** The operation types by name. */
  lemma KindsByName(op: Op)
    ensures IsPayment(op) <==> op.kind == "payment" || op.kind == "path_payment_strict_receive" || op.kind == "path_payment_strict_send"
    ensures IsPathPayment(op) <==> op.kind == "path_payment_strict_receive" || op.kind == "path_payment_strict_send"
    ensures IsOffer(op) <==> op.kind == "manage_sell_offer" || op.kind == "manage_buy_offer" || op.kind == "create_passive_sell_offer"
    ensures (IsChangeTrust(op) <==> op.kind == "change_trust") && (IsCreateAccount(op) <==> op.kind == "create_account")
    ensures (IsAccountMerge(op) <==> op.kind == "account_merge") && (IsSetOptions(op) <==> op.kind == "set_options")
  {
  }

  /** No operation is counted under two types, and every path payment is a payment. */
  lemma {:induction false} KindsAreApart(ops: seq<Op>)
    ensures Count(ops, IsPayment) + Count(ops, IsOffer) + Count(ops, IsChangeTrust) + Count(ops, IsCreateAccount)
            + Count(ops, IsAccountMerge) + Count(ops, IsSetOptions) <= |ops|
    ensures Count(ops, IsPathPayment) <= Count(ops, IsPayment)
  {
    if ops != [] {
      KindsAreApart(ops[..|ops| - 1]);
      KindsByName(ops[|ops| - 1]);
    }
  }

  /** The payment goes from `a` to `b`, two named wallets: the payer is the `from` field, or the operation's
      source when that is missing or empty. */
  ghost predicate Pays(op: Op, a: Text, b: Text) {
    && IsPayment(op) && a != "" && b != "" && a != b && op.payee == Some(b)
    && (op.payer == Some(a) || ((op.payer == None || op.payer == Some("")) && op.source == Some(a)))
  }

  /** What the payer's view counts as sent to the payee, the payee's view counts as received from it. */
  lemma TwoViews(op: Op, a: Text, b: Text)
    requires a != "" && b != ""
    ensures Pays(op, a, b) <==> Sent({a})(op) && op.payee == Some(b)
    ensures Pays(op, a, b) <==> Received({b})(op) && Sender(op) == Some(a)
  {
  }

  function SentTo(a: Text, b: Text): Op -> bool {
    (op: Op) => Sent({a})(op) && op.payee == Some(b)
  }

  function ReceivedFrom(b: Text, a: Text): Op -> bool {
    (op: Op) => Received({b})(op) && Sender(op) == Some(a)
  }

  /** So over any history the two wallets agree on how often and how much one paid the other. */
  lemma {:induction false} ViewsAgree(ops: seq<Op>, a: Text, b: Text)
    requires a != "" && b != ""
    ensures Count(ops, SentTo(a, b)) == Count(ops, ReceivedFrom(b, a))
    ensures Total(ops, AmountIf(SentTo(a, b))) == Total(ops, AmountIf(ReceivedFrom(b, a)))
  {
    if ops != [] {
      ViewsAgree(ops[..|ops| - 1], a, b);
      TwoViews(ops[|ops| - 1], a, b);
    }
  }

  /** An asset is native when its type says so, or the source asset's when it has none, or neither is given. */
  lemma NativeByName(op: Op)
    ensures IsNative(op) <==>
            if op.assetType.Some? && op.assetType.value != "" then op.assetType.value == "native"
            else op.sourceAssetType.Some? && op.sourceAssetType.value != "" ==> op.sourceAssetType.value == "native"
  {
  }

  /** Days are 86400 seconds, in both uses. */
  lemma DayLengths(earlier: int, later: int)
    ensures 86400 * DayOf(later) <= later < 86400 * (DayOf(later) + 1)
    ensures DaysBetween(earlier, later) * 86400.0 == if earlier <= later then (later - earlier) as real else 0.0
  {
  }

  function Scaled(x: real, n: nat): real {
    x * n as real
  }

  lemma PerItemBack(total: real, n: nat)
    requires n == 0 ==> total == 0.0
    ensures Scaled(PerItem(total, n), n) == total
  {
  }

  lemma DivBack(n: nat, d: nat)
    requires d == 0 ==> n == 0
    ensures Scaled(Div(n, d), d) == n as real
  {
  }

  lemma {:induction false} SumAtMost(values: seq<real>, max: real)
    requires forall i :: 0 <= i < |values| ==> values[i] <= max
    ensures Sum(values) <= |values| as real * max
  {
    if values != [] {
      SumAtMost(values[..|values| - 1], max);
      assert |values| as real * max == (|values| - 1) as real * max + max;
    }
  }

  lemma MeanAtMostMax(values: seq<real>, max: real)
    requires values != [] && forall i :: 0 <= i < |values| ==> values[i] <= max
    ensures Mean(values) <= max
  {
    SumAtMost(values, max);
    PerItemBack(Sum(values), |values|);
    NotAbove(Mean(values), max, |values| as real);
  }

  lemma NotAbove(x: real, y: real, n: real)
    requires n > 0.0 && x * n <= n * y
    ensures x <= y
  {
    assert x > y ==> (x - y) * n > 0.0;
  }

  lemma LargestBounds(values: seq<real>, max: real)
    requires values != [] && IsLargest(Elements(values), max)
    ensures forall i :: 0 <= i < |values| ==> values[i] <= max
  {
    forall i | 0 <= i < |values| ensures values[i] <= max {
      assert values[i] in Elements(values);
    }
  }

  /** A side's mean is the mean of its amounts, so it is at most the largest. */
  lemma SideMean(ops: seq<Op>, p: Op -> bool, parties: set<Text>, s: Side)
    requires IsSide(ops, p, parties, s)
    ensures s.mean == Mean(Amounts(ops, p)) && s.n == |Amounts(ops, p)|
    ensures s.n > 0 ==> s.mean <= s.max
  {
    AmountsSum(ops, p, s.mean);
    if s.n > 0 {
      LargestBounds(Amounts(ops, p), s.max);
      MeanAtMostMax(Amounts(ops, p), s.max);
    }
  }

  /** Times the number of payments, it gives back the total, and the variance the squares about it. */
  lemma SideMultipliesBack(ops: seq<Op>, p: Op -> bool, parties: set<Text>, s: Side)
    requires IsSide(ops, p, parties, s)
    ensures Scaled(s.mean, s.n) == s.total
    ensures Scaled(s.variance, s.n) == SumOfSquares(Amounts(ops, p), s.mean)
  {
    AmountsSum(ops, p, s.mean);
    if s.n == 0 {
      assert Amounts(ops, p) == [];
    }
    PerItemBack(Sum(Amounts(ops, p)), s.n);
    PerItemBack(SumOfSquares(Amounts(ops, p), s.mean), s.n);
  }

  /** The ratios are shares: of operations that failed, and of external sends that are native. */
  lemma RatiosAreShares(ops: seq<Op>, balances: seq<Balance>, self: set<Text>, reference: int, f: Features)
    requires IsFeatures(ops, balances, self, reference, f)
    ensures Scaled(f.failedRatio, |ops|) == Count(ops, IsFailed) as real
    ensures Scaled(f.nativeSendRatio, f.sent.n) == Count(ops, NativeSent(self)) as real
  {
    CountAtMost(ops, NativeSent(self), Sent(self));
    CountAtMost(ops, IsFailed, IsFailed);
    DivBack(Count(ops, IsFailed), |ops|);
    DivBack(Count(ops, NativeSent(self)), Count(ops, Sent(self)));
  }

  lemma {:induction false} CountAtMost(ops: seq<Op>, p: Op -> bool, q: Op -> bool)
    requires forall op :: p(op) ==> q(op)
    ensures Count(ops, p) <= Count(ops, q) <= |ops|
  {
    if ops != [] {
      CountAtMost(ops[..|ops| - 1], p, q);
    }
  }

  // ----- What the features depend on -----

  /** Every payment is an external send, an external receipt, or uncounted, and so is its amount. */
  lemma {:induction false} PaymentsSplit(ops: seq<Op>, self: set<Text>)
    ensures Count(ops, IsPayment) == Count(ops, Sent(self)) + Count(ops, Received(self)) + Count(ops, Uncounted(self))
    ensures Total(ops, AmountIf(IsPayment))
            == Total(ops, AmountIf(Sent(self))) + Total(ops, AmountIf(Received(self))) + Total(ops, AmountIf(Uncounted(self)))
  {
    if ops != [] {
      PaymentsSplit(ops[..|ops| - 1], self);
    }
  }

  /** Widening the group turns sends and receipts with a new member into internal transfers and
      never a receipt into a send. */
  lemma WiderGroup(op: Op, self: set<Text>, wider: set<Text>)
    requires self <= wider
    ensures Sent(self)(op) ==> !Received(wider)(op) && (Sent(wider)(op) <==> !IsSelf(wider, op.payee))
    ensures Received(self)(op) ==> !Sent(wider)(op) && (Received(wider)(op) <==> !IsSelf(wider, Sender(op)))
  {
  }

  lemma SameElements(a: seq<Op>, b: seq<Op>)
    requires multiset(a) == multiset(b)
    ensures |a| == |b| && forall op :: op in a <==> op in b
  {
    assert |multiset(a)| == |a| && |multiset(b)| == |b|;
    forall op ensures op in a <==> op in b {
      assert op in a <==> op in multiset(a);
      assert op in b <==> op in multiset(b);
    }
  }

  lemma SameCount(a: seq<Op>, b: seq<Op>, p: Op -> bool)
    requires multiset(a) == multiset(b)
    ensures Count(a, p) == Count(b, p)
  {
    OrderDoesNotMatter(a, b, p, AmountIf(p));
  }

  lemma SameSide(a: seq<Op>, b: seq<Op>, p: Op -> bool, parties: set<Text>, s: Side, t: Side)
    requires multiset(a) == multiset(b)
    requires IsSide(a, p, parties, s) && IsSide(b, p, parties, t)
    ensures s == t
  {
    SameElements(a, b);
    OrderDoesNotMatter(a, b, p, AmountIf(p));
    OrderDoesNotMatter(a, b, p, SquareIf(p, s.mean));
    assert AmountsOf(a, p) == AmountsOf(b, p);
  }

  lemma SameCounts(a: seq<Op>, b: seq<Op>, f: Features, g: Features)
    requires multiset(a) == multiset(b)
    requires IsCounts(a, f) && IsCounts(b, g)
    ensures f == g.(assets := f.assets, trustlines := f.trustlines, ageDays := f.ageDays, recencyDays := f.recencyDays, days := f.days,
                    sent := f.sent, received := f.received, nativeSendRatio := f.nativeSendRatio)
  {
    SameElements(a, b);
    SameCount(a, b, IsPayment);
    SameCount(a, b, IsPathPayment);
    SameCount(a, b, IsOffer);
    SameCount(a, b, IsChangeTrust);
    SameCount(a, b, IsCreateAccount);
    SameCount(a, b, IsAccountMerge);
    SameCount(a, b, IsSetOptions);
    SameCount(a, b, IsFailed);
    assert KindsOf(a) == KindsOf(b);
  }

  lemma SameDays(a: seq<Op>, b: seq<Op>, days: map<int, nat>, others: map<int, nat>)
    requires multiset(a) == multiset(b) && IsDays(a, days) && IsDays(b, others)
    ensures days == others
  {
    forall d ensures (d in days <==> d in others) && (d in days ==> days[d] == others[d]) {
      SameCount(a, b, OnDay(d));
    }
  }

  lemma SameParties(a: seq<Op>, b: seq<Op>, self: set<Text>)
    requires multiset(a) == multiset(b)
    ensures Payees(a, self) == Payees(b, self) && Payers(a, self) == Payers(b, self) && TimesOf(a) == TimesOf(b)
  {
    SameElements(a, b);
  }

  /** The features are a function of the operations as a collection and of the trustlines. */
  lemma SameFeatures(a: seq<Op>, balances: seq<Balance>, b: seq<Op>, others: seq<Balance>, self: set<Text>, reference: int,
                     f: Features, g: Features)
    requires IsFeatures(a, balances, self, reference, f) && IsFeatures(b, others, self, reference, g)
    requires multiset(a) == multiset(b) && Assets(balances) == Assets(others)
    ensures f == g <==> |Trustlines(balances)| == |Trustlines(others)|
  {
    SameCounts(a, b, f, g);
    SameDays(a, b, f.days, g.days);
    SameParties(a, b, self);
    SameSide(a, b, Sent(self), Payees(a, self), f.sent, g.sent);
    SameSide(a, b, Received(self), Payers(a, self), f.received, g.received);
    SameCount(a, b, NativeSent(self));
    SameCount(a, b, Sent(self));
  }

  // ----- Trustlines -----

  ghost function TrustlineKeys(keys: set<AssetKey>): set<AssetKey> {
    set k | k in keys && k.assetType != Some("native") && k.assetType != Some("liquidity_pool_shares")
  }

  lemma {:induction false} KeysOfTrustlines(balances: seq<Balance>)
    ensures KeysOf(Trustlines(balances)) == TrustlineKeys(KeysOf(balances))
  {
    if balances != [] {
      var front, last := balances[..|balances| - 1], balances[|balances| - 1];
      KeysOfTrustlines(front);
      assert balances == front + [last];
      KeysOfAppend(front, last);
      if IsTrustline(last) {
        KeysOfAppend(Trustlines(front), last);
      } else {
        assert Trustlines(balances) == Trustlines(front);
      }
    }
  }

  /** A list is as long as its key set exactly when its keys are distinct. */
  lemma {:induction false} DistinctIffAllCounted(balances: seq<Balance>)
    ensures |balances| >= |KeysOf(balances)|
    ensures DistinctKeys(balances) <==> |balances| == |KeysOf(balances)|
  {
    if balances != [] {
      var front, last := balances[..|balances| - 1], balances[|balances| - 1];
      DistinctIffAllCounted(front);
      assert balances == front + [last];
      KeysOfAppend(front, last);
      if KeyOf(last) in KeysOf(front) {
        var i :| 0 <= i < |front| && KeyOf(front[i]) == KeyOf(last);
        assert balances[i] == front[i] && balances[|front|] == last;
      } else {
        assert DistinctKeys(balances) ==> DistinctKeys(front);
        assert forall i :: 0 <= i < |front| ==> front[i] in front;
      }
    }
  }

  lemma {:induction false} TrustlinesKeepDistinct(balances: seq<Balance>)
    requires DistinctKeys(balances)
    ensures DistinctKeys(Trustlines(balances)) && forall b :: b in Trustlines(balances) ==> b in balances
  {
    if balances != [] {
      var front, last := balances[..|balances| - 1], balances[|balances| - 1];
      TrustlinesKeepDistinct(front);
      forall b | b in Trustlines(front) ensures KeyOf(b) != KeyOf(last) {
        var i :| 0 <= i < |front| && front[i] == b;
        assert balances[i] == b;
      }
    }
  }

  ghost function AssetsOf(keys: set<AssetKey>): set<(Option<Text>, Option<Text>)> {
    set k | k in keys :: (k.assetCode, k.assetIssuer)
  }

  lemma AssetsByKey(balances: seq<Balance>)
    ensures Assets(balances) == AssetsOf(TrustlineKeys(KeysOf(balances)))
  {
    KeysOfTrustlines(balances);
    forall b | b in Trustlines(balances) ensures (b.assetCode, b.assetIssuer) in AssetsOf(KeysOf(Trustlines(balances))) {
      assert KeyOf(b) in KeysOf(Trustlines(balances));
    }
  }

  // ----- Groups -----

  /** Two histories merged from the same operations, with the same asset keys, have the same features. */
  lemma MemberOrderIsIrrelevant(all: set<Op>, keys: set<AssetKey>, a: Group, b: Group, self: set<Text>, reference: int, f: Features, g: Features)
    requires a.Merged? && b.Merged?
    requires OnceEach(a.ops, all) && KeysOf(a.balances) == keys && DistinctKeys(a.balances)
    requires OnceEach(b.ops, all) && KeysOf(b.balances) == keys && DistinctKeys(b.balances)
    requires IsFeatures(a.ops, a.balances, self, reference, f) && IsFeatures(b.ops, b.balances, self, reference, g)
    ensures f == g
  {
    OnceEachIsPermutation(a.ops, b.ops, all);
    AssetsByKey(a.balances);
    AssetsByKey(b.balances);
    KeysOfTrustlines(a.balances);
    KeysOfTrustlines(b.balances);
    TrustlinesKeepDistinct(a.balances);
    TrustlinesKeepDistinct(b.balances);
    DistinctIffAllCounted(Trustlines(a.balances));
    DistinctIffAllCounted(Trustlines(b.balances));
    SameFeatures(a.ops, a.balances, b.ops, b.balances, self, reference, f, g);
  }

  /** A group of one scores as the wallet alone exactly when no two of its trustlines share a key;
      repeated native or pool-share balances are dropped by the merge but never counted. */
  lemma GroupOfOne(ops: seq<Op>, balances: seq<Balance>, merged: Group, self: set<Text>, reference: int, alone: Features, grouped: Features)
    requires OnceEach(ops, SetOf(ops))
    requires merged.Merged? && OnceEach(merged.ops, SetOf(ops))
    requires KeysOf(merged.balances) == KeysOf(balances) && DistinctKeys(merged.balances)
    requires IsFeatures(ops, balances, self, reference, alone)
    requires IsFeatures(merged.ops, merged.balances, self, reference, grouped)
    ensures alone == grouped <==> DistinctKeys(Trustlines(balances))
  {
    OnceEachIsPermutation(ops, merged.ops, SetOf(ops));
    AssetsByKey(balances);
    AssetsByKey(merged.balances);
    KeysOfTrustlines(balances);
    KeysOfTrustlines(merged.balances);
    TrustlinesKeepDistinct(merged.balances);
    DistinctIffAllCounted(Trustlines(balances));
    DistinctIffAllCounted(Trustlines(merged.balances));
    SameFeatures(ops, balances, merged.ops, merged.balances, self, reference, alone, grouped);
  }

  // ----- Runs of the loop -----

  /** The merged history the loop produces from this cache and Horizon. */
  ghost predicate IsGroupOf(rows: map<Text, OpRow>, accounts: map<Text, seq<Balance>>, horizon: map<Text, Fetched>, members: set<Text>, g: Group) {
    && g.Merged? && OnceEach(g.ops, GroupOps(rows, horizon, members))
    && KeysOf(g.balances) == GroupKeys(accounts, horizon, members) && DistinctKeys(g.balances)
  }

  /** `attest_group` up to the model: the loop, the merge, the features. */
  method ScoreGroup(cache: Cache, members: seq<Text>, horizon: map<Text, Fetched>, reference: int, ghost record: map<Text, Op>)
    returns (f: Option<Features>, ghost g: Group)
    requires TableOk(cache.rows, cache.accounts) && Canonical(record, cache.rows, horizon)
    modifies cache
    ensures f.None? <==> members == []
    ensures f.Some? ==> IsGroupOf(old(cache.rows), old(cache.accounts), horizon, MembersOf(members), g)
    ensures f.Some? ==> IsFeatures(g.ops, g.balances, MembersOf(members), reference, f.value)
  {
    var merged := AttestGroup(cache, members, horizon, record);
    g := merged;
    if merged.EmptyGroup? { return None, g; }
    var self := set m | m in members;
    var features := Extract(merged.ops, merged.balances, self, reference);
    return Some(features), g;
  }

  /** Two runs of the group loop from equal caches over member lists that are reorderings of each other,
      repeats included, score the same features. */
  method ScoreReordered(a: Cache, b: Cache, members: seq<Text>, others: seq<Text>, horizon: map<Text, Fetched>, reference: int,
                        ghost record: map<Text, Op>)
    returns (f: Option<Features>, f': Option<Features>)
    requires a != b && a.rows == b.rows && a.accounts == b.accounts
    requires TableOk(a.rows, a.accounts) && Canonical(record, a.rows, horizon)
    requires MembersOf(members) == MembersOf(others)
    modifies a, b
    ensures f == f'
    ensures f.None? <==> members == []
  {
    ghost var rows, accounts, self := a.rows, a.accounts, MembersOf(members);
    ghost var g, g';
    f, g := ScoreGroup(a, members, horizon, reference, record);
    f', g' := ScoreGroup(b, others, horizon, reference, record);
    EmptyMembers(members, others);
    if f.Some? {
      MemberOrderIsIrrelevant(GroupOps(rows, horizon, self), GroupKeys(accounts, horizon, self), g, g', self, reference, f.value, f'.value);
    }
  }

  lemma EmptyMembers(members: seq<Text>, others: seq<Text>)
    requires MembersOf(members) == MembersOf(others)
    ensures members == [] <==> others == []
  {
    assert members != [] ==> members[0] in MembersOf(members);
    assert others != [] ==> others[0] in MembersOf(others);
  }

  /** The balances an account is scored on: as fetched, or else as cached. */
  function BalancesOf(accounts: map<Text, seq<Balance>>, horizon: map<Text, Fetched>, address: Text): seq<Balance> {
    if address in horizon then horizon[address].balances else if address in accounts then accounts[address] else []
  }

  /** What a wallet owns after its own ingest is what the group loop collects for it alone. */
  lemma OwnAfterIngest(record: map<Text, Op>, rows: map<Text, OpRow>, accounts: map<Text, seq<Balance>>, horizon: map<Text, Fetched>,
                       address: Text, rows': map<Text, OpRow>, accounts': map<Text, seq<Balance>>)
    requires Canonical(record, rows, horizon) && Ingested(rows, accounts, horizon, address, rows', accounts')
    requires forall id :: id in rows ==> rows[id].op.id == id
    ensures OwnedBy(rows', address) == GroupOps(rows, horizon, {address})
  {
    if address in horizon {
      PersistedFacts(rows, address, horizon[address].ops);
      forall op | op in horizon[address].ops ensures op in OwnedBy(rows', address) {
        assert op.id in IdsOf(horizon[address].ops) && rows'[op.id].op == op;
      }
      forall id | id in rows && rows[id].owner == address ensures rows[id].op in OwnedBy(rows', address) {
        assert rows'[id].owner == address && rows'[id].op == rows[id].op;
      }
    }
  }

  lemma KeysOfOne(accounts: map<Text, seq<Balance>>, horizon: map<Text, Fetched>, address: Text)
    ensures GroupKeys(accounts, horizon, {address}) == KeysOf(BalancesOf(accounts, horizon, address))
  {
  }

  /** `attest` up to the model: one ingest, one load, the features. */
  method ScoreAlone(cache: Cache, address: Text, horizon: map<Text, Fetched>, reference: int, ghost record: map<Text, Op>)
    returns (f: Features, ghost ops: seq<Op>)
    requires TableOk(cache.rows, cache.accounts) && Canonical(record, cache.rows, horizon)
    modifies cache
    ensures OnceEach(ops, GroupOps(old(cache.rows), horizon, {address}))
    ensures IsFeatures(ops, BalancesOf(old(cache.accounts), horizon, address), {address}, reference, f)
  {
    ghost var rows, accounts := cache.rows, cache.accounts;
    var _ := cache.IngestWallet(address, horizon);
    var found, balances, loaded := cache.Load(address);
    OwnAfterIngest(record, rows, accounts, horizon, address, cache.rows, cache.accounts);
    assert balances == BalancesOf(accounts, horizon, address);
    f := Extract(loaded, balances, {address}, reference);
    ops := loaded;
  }

  lemma OnceEachSet(ops: seq<Op>, s: set<Op>)
    requires OnceEach(ops, s)
    ensures SetOf(ops) == s
  {
  }

  lemma AloneAgainstGroup(rows: map<Text, OpRow>, accounts: map<Text, seq<Balance>>, horizon: map<Text, Fetched>, address: Text,
                          reference: int, ops: seq<Op>, balances: seq<Balance>, g: Group, alone: Features, grouped: Features)
    requires OnceEach(ops, GroupOps(rows, horizon, {address})) && IsGroupOf(rows, accounts, horizon, {address}, g)
    requires balances == BalancesOf(accounts, horizon, address)
    requires IsFeatures(ops, balances, {address}, reference, alone) && IsFeatures(g.ops, g.balances, {address}, reference, grouped)
    ensures alone == grouped <==> DistinctKeys(Trustlines(balances))
  {
    KeysOfOne(accounts, horizon, address);
    OnceEachSet(ops, GroupOps(rows, horizon, {address}));
    GroupOfOne(ops, balances, g, {address}, reference, alone, grouped);
  }

  /** The group loop over one member against the single-wallet path from an equal cache: the same
      features exactly when no two trustlines of the account share a key. */
  method ScoreAloneAndAsGroup(a: Cache, b: Cache, address: Text, horizon: map<Text, Fetched>, reference: int, ghost record: map<Text, Op>)
    returns (alone: Features, grouped: Option<Features>)
    requires a != b && a.rows == b.rows && a.accounts == b.accounts
    requires TableOk(a.rows, a.accounts) && Canonical(record, a.rows, horizon)
    modifies a, b
    ensures grouped.Some?
    ensures alone == grouped.value <==> DistinctKeys(Trustlines(BalancesOf(old(a.accounts), horizon, address)))
  {
    ghost var rows, accounts := a.rows, a.accounts;
    ghost var ops, g;
    alone, ops := ScoreAlone(a, address, horizon, reference, record);
    grouped, g := ScoreGroup(b, [address], horizon, reference, record);
    assert MembersOf([address]) == {address};
    AloneAgainstGroup(rows, accounts, horizon, address, reference, ops, BalancesOf(accounts, horizon, address), g, alone, grouped.value);
  }
}
