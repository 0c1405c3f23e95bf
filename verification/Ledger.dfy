/**
 What recomputing the wallet's ledger means. Run is the recomputation, transaction by transaction; the lemmas say
 what it arrives at in terms of the whole list.
 */
module Ledger {
  import opened Options
  import opened Transactions

  // What the ledger is computed from besides the transaction list.
  datatype Context = Context(allTx: map<Hash, Tx>, allAddrs: set<string>, blockHeight: UInt32, now: int)

  // Every listed transaction is registered under its hash, and its outputs can be numbered.
  ghost predicate Registered(ctx: Context, txs: seq<Tx>) {
    forall i :: 0 <= i < |txs| ==> IsRegistered(ctx, txs[i])
  }

  ghost predicate IsRegistered(ctx: Context, tx: Tx) {
    tx.txHash in ctx.allTx && ctx.allTx[tx.txHash] == tx && |tx.outputs| <= UINT32_MAX
  }

  // Its outputs can be numbered in 32 bits.
  predicate Numbered(txs: seq<Tx>) {
    forall i :: 0 <= i < |txs| ==> |txs[i].outputs| <= UINT32_MAX
  }

  // ---- verdicts ----

  datatype Verdict = Invalid | Pending | Accepted

  predicate IsInvalid(tx: Tx, spent: set<OutPoint>, invalid: set<Hash>) {
    && tx.blockHeight == TX_UNCONFIRMED
    && exists j :: 0 <= j < |tx.inputs| && BadInput(tx.inputs[j], spent, invalid)
  }

  predicate BadInput(input: Input, spent: set<OutPoint>, invalid: set<Hash>) {
    input.Spends() in spent || input.txHash in invalid
  }

  predicate IsDust(output: Output) { output.amount < TX_MIN_OUTPUT_AMOUNT }

  // An input that can be replaced, is locked to the future, or spends a pending transaction.
  predicate IsOpen(ctx: Context, lockTime: UInt32, input: Input, pending: set<Hash>) {
    || input.sequence < UINT32_MAX - 1
    || (input.sequence < UINT32_MAX && lockTime < TX_MAX_LOCK_HEIGHT
        && lockTime > (ctx.blockHeight + 1) % 0x1_0000_0000)
    || (input.sequence < UINT32_MAX && lockTime > ctx.now)
    || input.txHash in pending
  }

  predicate IsPending(ctx: Context, tx: Tx, pending: set<Hash>) {
    && tx.blockHeight == TX_UNCONFIRMED
    && (|| TxSize(tx) > TX_MAX_SIZE
        || (exists j :: 0 <= j < |tx.outputs| && IsDust(tx.outputs[j]))
        || (exists j :: 0 <= j < |tx.inputs| && IsOpen(ctx, tx.lockTime, tx.inputs[j], pending)))
  }

  function Judge(ctx: Context, tx: Tx, spent: set<OutPoint>, invalid: set<Hash>, pending: set<Hash>): Verdict {
    if IsInvalid(tx, spent, invalid) then Invalid
    else if IsPending(ctx, tx, pending) then Pending
    else Accepted
  }

  // The verdict on each transaction, given those before it.
  function Verdicts(ctx: Context, txs: seq<Tx>): (vs: seq<Verdict>)
    ensures |vs| == |txs|
  {
    if txs == [] then []
    else
      var init := txs[..|txs| - 1];
      var vs := Verdicts(ctx, init);
      vs + [Judge(ctx, txs[|txs| - 1], SpentBy(init, vs), Hashes(init, vs, Invalid), Hashes(init, vs, Pending))]
  }

  function InputsOf(tx: Tx): set<OutPoint> {
    set j | 0 <= j < |tx.inputs| :: tx.inputs[j].Spends()
  }

  // The outputs spent by the transactions that are not invalid.
  function SpentBy(txs: seq<Tx>, vs: seq<Verdict>): set<OutPoint>
    requires |txs| == |vs|
  {
    if txs == [] then {}
    else
      var n := |txs| - 1;
      SpentBy(txs[..n], vs[..n]) + (if vs[n] == Invalid then {} else InputsOf(txs[n]))
  }

  function Hashes(txs: seq<Tx>, vs: seq<Verdict>, v: Verdict): set<Hash>
    requires |txs| == |vs|
  {
    if txs == [] then {}
    else
      var n := |txs| - 1;
      Hashes(txs[..n], vs[..n], v) + (if vs[n] == v then {txs[n].txHash} else {})
  }

  // ---- outputs ----

  predicate Pays(ctx: Context, output: Output) {
    output.address != "" && output.address in ctx.allAddrs
  }

  // The first k outputs of a transaction that pay to the wallet.
  function WalletOutputs(ctx: Context, tx: Tx, k: nat): seq<OutPoint>
    requires k <= |tx.outputs| <= UINT32_MAX
  {
    if k == 0 then []
    else WalletOutputs(ctx, tx, k - 1) + (if Pays(ctx, tx.outputs[k - 1]) then [OutPoint(tx.txHash, k - 1)] else [])
  }

  // What the accepted transactions pay to the wallet.
  function Paid(ctx: Context, txs: seq<Tx>, vs: seq<Verdict>): seq<OutPoint>
    requires |txs| == |vs|
    requires Numbered(txs)
  {
    if txs == [] then []
    else
      var n := |txs| - 1;
      Paid(ctx, txs[..n], vs[..n]) +
      (if vs[n] == Accepted then WalletOutputs(ctx, txs[n], |txs[n].outputs|) else [])
  }

  function Addresses(tx: Tx, k: nat): set<string>
    requires k <= |tx.outputs|
  {
    set j | 0 <= j < k && tx.outputs[j].address != "" :: tx.outputs[j].address
  }

  // The part of a list of outputs that is not spent, and the part that is.
  function Unspent(ops: seq<OutPoint>, spent: set<OutPoint>): seq<OutPoint> {
    if ops == [] then []
    else Unspent(ops[..|ops| - 1], spent) + (if ops[|ops| - 1] in spent then [] else [ops[|ops| - 1]])
  }

  function Spent(ops: seq<OutPoint>, spent: set<OutPoint>): seq<OutPoint> {
    if ops == [] then []
    else Spent(ops[..|ops| - 1], spent) + (if ops[|ops| - 1] in spent then [ops[|ops| - 1]] else [])
  }

  predicate Known(ctx: Context, op: OutPoint) {
    op.hash in ctx.allTx && op.n < |ctx.allTx[op.hash].outputs|
  }

  function Amount(ctx: Context, op: OutPoint): nat {
    if Known(ctx, op) then ctx.allTx[op.hash].outputs[op.n].amount else 0
  }

  function Total(ctx: Context, ops: seq<OutPoint>): nat {
    if ops == [] then 0 else Total(ctx, ops[..|ops| - 1]) + Amount(ctx, ops[|ops| - 1])
  }

  // ---- the recomputation ----

  datatype State = State(utxos: seq<OutPoint>, hist: seq<UInt64>, spent: set<OutPoint>, invalid: set<Hash>,
                         pending: set<Hash>, used: set<string>, balance: UInt64, prevBalance: UInt64,
                         totalSent: UInt64, totalReceived: UInt64)

  const EMPTY := State([], [], {}, {}, {}, {}, 0, 0, 0, 0)

  // 64-bit arithmetic.
  function Mod64(x: int): UInt64 { x % TWO_64 }
  function Add64(x: int, y: int): UInt64 { Mod64(x + y) }
  function Sub64(x: int, y: int): UInt64 { Mod64(x - y) }

  function Step(ctx: Context, s: State, tx: Tx): State
    requires |tx.outputs| <= UINT32_MAX
  {
    match Judge(ctx, tx, s.spent, s.invalid, s.pending)
    case Invalid => s.(invalid := s.invalid + {tx.txHash}, hist := s.hist + [s.balance])
    case Pending => s.(spent := s.spent + InputsOf(tx), pending := s.pending + {tx.txHash}, hist := s.hist + [s.balance])
    case Accepted => Accept(ctx, s, tx)
  }

  // The outputs on the list once tx is accepted: its own are added, and the whole list is checked against all
  // spent outputs.
  function Relisted(ctx: Context, utxos: seq<OutPoint>, spent: set<OutPoint>, tx: Tx): seq<OutPoint>
    requires |tx.outputs| <= UINT32_MAX
  {
    Unspent(utxos + WalletOutputs(ctx, tx, |tx.outputs|), spent + InputsOf(tx))
  }

  function Rebalanced(ctx: Context, balance: UInt64, utxos: seq<OutPoint>, spent: set<OutPoint>, tx: Tx): UInt64
    requires |tx.outputs| <= UINT32_MAX
  {
    var paid := WalletOutputs(ctx, tx, |tx.outputs|);
    Sub64(balance + Total(ctx, paid), Total(ctx, Spent(utxos + paid, spent + InputsOf(tx))))
  }

  function Accept(ctx: Context, s: State, tx: Tx): State
    requires |tx.outputs| <= UINT32_MAX
  {
    var balance := Rebalanced(ctx, s.balance, s.utxos, s.spent, tx);
    s.(utxos := Relisted(ctx, s.utxos, s.spent, tx), spent := s.spent + InputsOf(tx),
       used := s.used + Addresses(tx, |tx.outputs|),
       balance := balance, prevBalance := balance, hist := s.hist + [balance],
       totalReceived := if s.prevBalance < balance then Add64(s.totalReceived, balance - s.prevBalance)
                        else s.totalReceived,
       totalSent := if balance < s.prevBalance then Add64(s.totalSent, s.prevBalance - balance) else s.totalSent)
  }

  function Run(ctx: Context, txs: seq<Tx>): State
    requires Numbered(txs)
  {
    if txs == [] then EMPTY else Step(ctx, Run(ctx, txs[..|txs| - 1]), txs[|txs| - 1])
  }

  // ---- what it arrives at ----

  lemma {:induction false} UnspentAppend(a: seq<OutPoint>, b: seq<OutPoint>, spent: set<OutPoint>)
    ensures Unspent(a + b, spent) == Unspent(a, spent) + Unspent(b, spent)
    ensures Spent(a + b, spent) == Spent(a, spent) + Spent(b, spent)
  {
    if b == [] {
      assert a + b == a;
    } else {
      var n := |b| - 1;
      assert (a + b)[..|a + b| - 1] == a + b[..n];
      UnspentAppend(a, b[..n], spent);
    }
  }

  // Spent outputs stay spent.
  lemma {:induction false} UnspentAgain(a: seq<OutPoint>, spent: set<OutPoint>, more: set<OutPoint>)
    requires spent <= more
    ensures Unspent(Unspent(a, spent), more) == Unspent(a, more)
  {
    if a != [] {
      var n := |a| - 1;
      UnspentAgain(a[..n], spent, more);
      UnspentAppend(Unspent(a[..n], spent), if a[n] in spent then [] else [a[n]], more);
      assert a[n] !in spent ==> [a[n]][..0] == [];
    }
  }

  lemma {:induction false} UnspentMember(a: seq<OutPoint>, spent: set<OutPoint>, op: OutPoint)
    ensures op in Unspent(a, spent) <==> op in a && op !in spent
  {
    if a != [] {
      var n := |a| - 1;
      UnspentMember(a[..n], spent, op);
      assert a == a[..n] + [a[n]];
    }
  }

  lemma {:induction false} TotalAppend(ctx: Context, a: seq<OutPoint>, b: seq<OutPoint>)
    ensures Total(ctx, a + b) == Total(ctx, a) + Total(ctx, b)
  {
    if b == [] {
      assert a + b == a;
    } else {
      var n := |b| - 1;
      assert (a + b)[..|a + b| - 1] == a + b[..n];
      TotalAppend(ctx, a, b[..n]);
    }
  }

  lemma TotalOne(ctx: Context, a: seq<OutPoint>, op: OutPoint)
    ensures Total(ctx, a + [op]) == Total(ctx, a) + Amount(ctx, op)
  {
    assert (a + [op])[..|a|] == a;
  }

  lemma {:induction false} TotalSplit(ctx: Context, a: seq<OutPoint>, spent: set<OutPoint>)
    ensures Total(ctx, a) == Total(ctx, Unspent(a, spent)) + Total(ctx, Spent(a, spent))
  {
    if a != [] {
      var n := |a| - 1;
      var kept, gone := Unspent(a[..n], spent), Spent(a[..n], spent);
      TotalSplit(ctx, a[..n], spent);
      TotalOne(ctx, kept, a[n]);
      TotalOne(ctx, gone, a[n]);
      assert kept + [] == kept && gone + [] == gone;
    }
  }

  // The number of transactions up to and including the last accepted one.
  function LastAccepted(vs: seq<Verdict>): (a: nat)
    ensures a <= |vs|
    ensures a > 0 ==> vs[a - 1] == Accepted
    ensures forall i :: a <= i < |vs| ==> vs[i] != Accepted
  {
    if vs == [] then 0 else if vs[|vs| - 1] == Accepted then |vs| else LastAccepted(vs[..|vs| - 1])
  }

  // The outputs of accepted transactions to the wallet that no transaction so far spends, invalid ones aside.
  function Listed(ctx: Context, txs: seq<Tx>, vs: seq<Verdict>): seq<OutPoint>
    requires |txs| == |vs|
    requires Numbered(txs)
  {
    Unspent(Paid(ctx, txs, vs), SpentBy(txs, vs))
  }

  // A state agrees with a list and the verdicts on it: the unspent outputs are those at the last accepted
  // transaction, and there is one history entry per transaction.
  ghost predicate Meets(ctx: Context, s: State, txs: seq<Tx>, vs: seq<Verdict>) {
    && |txs| == |vs| == |s.hist| && Numbered(txs)
    && s.spent == SpentBy(txs, vs)
    && s.invalid == Hashes(txs, vs, Invalid) && s.pending == Hashes(txs, vs, Pending)
    && s.utxos == Listed(ctx, txs[..LastAccepted(vs)], vs[..LastAccepted(vs)])
  }

  lemma Extend(txs: seq<Tx>, vs: seq<Verdict>, tx: Tx, v: Verdict)
    requires |txs| == |vs|
    ensures SpentBy(txs + [tx], vs + [v]) == SpentBy(txs, vs) + (if v == Invalid then {} else InputsOf(tx))
    ensures forall w :: Hashes(txs + [tx], vs + [v], w) == Hashes(txs, vs, w) + (if v == w then {tx.txHash} else {})
    ensures LastAccepted(vs + [v]) == if v == Accepted then |vs| + 1 else LastAccepted(vs)
  {
    assert (txs + [tx])[..|txs|] == txs && (vs + [v])[..|vs|] == vs;
  }

  lemma StepRejects(ctx: Context, s: State, txs: seq<Tx>, vs: seq<Verdict>, tx: Tx)
    requires Meets(ctx, s, txs, vs) && |tx.outputs| <= UINT32_MAX
    requires Judge(ctx, tx, s.spent, s.invalid, s.pending) != Accepted
    ensures Meets(ctx, Step(ctx, s, tx), txs + [tx], vs + [Judge(ctx, tx, s.spent, s.invalid, s.pending)])
  {
    MeetsParts(ctx, s, txs, vs);
    var v := Judge(ctx, tx, s.spent, s.invalid, s.pending);
    var a := LastAccepted(vs);
    Extend(txs, vs, tx, v);
    RejectIs(ctx, s, tx);
    hide *;
    MeetsIs(ctx, s, txs, vs);
    NumberedNext(txs, tx);
    assert (txs + [tx])[..a] == txs[..a] && (vs + [v])[..a] == vs[..a];
    MeetsIs(ctx, Step(ctx, s, tx), txs + [tx], vs + [v]);
  }

  lemma MeetsParts(ctx: Context, s: State, txs: seq<Tx>, vs: seq<Verdict>)
    requires Meets(ctx, s, txs, vs)
    ensures |txs| == |vs| && Numbered(txs)
  {
    hide SpentBy, Hashes, Listed;
  }

  lemma NumberedNext(txs: seq<Tx>, tx: Tx)
    requires Numbered(txs) && |tx.outputs| <= UINT32_MAX
    ensures Numbered(txs + [tx])
  {
  }

  lemma MeetsIs(ctx: Context, s: State, txs: seq<Tx>, vs: seq<Verdict>)
    requires |txs| == |vs| && Numbered(txs)
    ensures Numbered(txs[..LastAccepted(vs)])
    ensures Meets(ctx, s, txs, vs) <==>
      && |vs| == |s.hist| && s.spent == SpentBy(txs, vs)
      && s.invalid == Hashes(txs, vs, Invalid) && s.pending == Hashes(txs, vs, Pending)
      && s.utxos == Listed(ctx, txs[..LastAccepted(vs)], vs[..LastAccepted(vs)])
  {
    hide SpentBy, Hashes, Listed;
  }

  lemma RejectIs(ctx: Context, s: State, tx: Tx)
    requires |tx.outputs| <= UINT32_MAX && Judge(ctx, tx, s.spent, s.invalid, s.pending) != Accepted
    ensures var v, s' := Judge(ctx, tx, s.spent, s.invalid, s.pending), Step(ctx, s, tx);
      && s'.utxos == s.utxos && |s'.hist| == |s.hist| + 1
      && s'.spent == s.spent + (if v == Invalid then {} else InputsOf(tx))
      && s'.invalid == s.invalid + (if v == Invalid then {tx.txHash} else {})
      && s'.pending == s.pending + (if v == Pending then {tx.txHash} else {})
  {
    hide Judge, InputsOf, Accept;
  }

  lemma StepAccepts(ctx: Context, s: State, txs: seq<Tx>, vs: seq<Verdict>, tx: Tx)
    requires Meets(ctx, s, txs, vs) && |tx.outputs| <= UINT32_MAX
    requires Judge(ctx, tx, s.spent, s.invalid, s.pending) == Accepted
    ensures Meets(ctx, Step(ctx, s, tx), txs + [tx], vs + [Accepted])
  {
    hide SpentBy, Hashes, LastAccepted, InputsOf, Paid, WalletOutputs, Unspent, Addresses, Judge, Rebalanced;
    hide Relisted, Add64, Listed, Known;
    var txs', vs', s' := txs + [tx], vs + [Accepted], Accept(ctx, s, tx);
    assert Step(ctx, s, tx) == s';
    Extend(txs, vs, tx, Accepted);
    AcceptPaid(ctx, s, txs, vs, tx);
    ListedFull(ctx, txs', vs');
  }

  lemma AcceptPaid(ctx: Context, s: State, txs: seq<Tx>, vs: seq<Verdict>, tx: Tx)
    requires Meets(ctx, s, txs, vs) && |tx.outputs| <= UINT32_MAX
    ensures Numbered(txs + [tx])
    ensures Relisted(ctx, s.utxos, s.spent, tx)
         == Unspent(Paid(ctx, txs + [tx], vs + [Accepted]), SpentBy(txs + [tx], vs + [Accepted]))
  {
    hide SpentBy, Hashes, LastAccepted, InputsOf, Paid, WalletOutputs, Unspent, Addresses;
    var a, more := LastAccepted(vs), SpentBy(txs + [tx], vs + [Accepted]);
    Extend(txs, vs, tx, Accepted);
    PaidExtend(ctx, txs, vs, tx);
    SpentGrows(txs, vs, a);
    PaidRest(ctx, txs, vs, a);
    AcceptListed(ctx, Paid(ctx, txs, vs), SpentBy(txs[..a], vs[..a]), tx, more);
  }

  lemma ListedFull(ctx: Context, txs: seq<Tx>, vs: seq<Verdict>)
    requires |txs| == |vs| && Numbered(txs)
    ensures Listed(ctx, txs[..|txs|], vs[..|vs|]) == Unspent(Paid(ctx, txs, vs), SpentBy(txs, vs))
  {
    assert txs[..|txs|] == txs && vs[..|vs|] == vs;
  }

  lemma PaidExtend(ctx: Context, txs: seq<Tx>, vs: seq<Verdict>, tx: Tx)
    requires |txs| == |vs| && Numbered(txs) && |tx.outputs| <= UINT32_MAX
    ensures Paid(ctx, txs + [tx], vs + [Accepted]) == Paid(ctx, txs, vs) + WalletOutputs(ctx, tx, |tx.outputs|)
  {
    assert (txs + [tx])[..|txs|] == txs && (vs + [Accepted])[..|vs|] == vs;
  }

  // The recomputation agrees with the verdicts as they are defined on the list.
  lemma {:induction false} RunMeaning(ctx: Context, txs: seq<Tx>)
    requires Numbered(txs)
    ensures Meets(ctx, Run(ctx, txs), txs, Verdicts(ctx, txs))
  {
    hide *;
    if txs != [] {
      var n := |txs| - 1;
      var init, tx := txs[..n], txs[n];
      RunLast(ctx, txs);
      RunMeaning(ctx, init);
      var s, vs := Run(ctx, init), Verdicts(ctx, init);
      assert txs == init + [tx];
      VerdictsLast(ctx, txs, s);
      if Judge(ctx, tx, s.spent, s.invalid, s.pending) == Accepted {
        StepAccepts(ctx, s, init, vs, tx);
      } else {
        StepRejects(ctx, s, init, vs, tx);
      }
    } else {
      RunNone(ctx);
    }
  }

  lemma RunNone(ctx: Context)
    ensures Numbered([]) && Run(ctx, []) == EMPTY && Meets(ctx, Run(ctx, []), [], Verdicts(ctx, []))
  {
    assert Unspent([], {}) == [];
  }

  lemma VerdictsLast(ctx: Context, txs: seq<Tx>, s: State)
    requires txs != [] && Meets(ctx, s, txs[..|txs| - 1], Verdicts(ctx, txs[..|txs| - 1]))
    ensures Verdicts(ctx, txs)
         == Verdicts(ctx, txs[..|txs| - 1]) + [Judge(ctx, txs[|txs| - 1], s.spent, s.invalid, s.pending)]
  {
    hide Judge, SpentBy, Hashes, Listed, LastAccepted;
  }

  lemma AcceptListed(ctx: Context, paid: seq<OutPoint>, spent: set<OutPoint>, tx: Tx, more: set<OutPoint>)
    requires spent <= more && |tx.outputs| <= UINT32_MAX
    ensures var added := WalletOutputs(ctx, tx, |tx.outputs|);
      Unspent(Unspent(paid, spent) + added, more) == Unspent(paid + added, more)
  {
    var added := WalletOutputs(ctx, tx, |tx.outputs|);
    UnspentAgain(paid, spent, more);
    UnspentAppend(Unspent(paid, spent), added, more);
    UnspentAppend(paid, added, more);
  }

  lemma {:induction false} SpentGrows(txs: seq<Tx>, vs: seq<Verdict>, a: nat)
    requires |txs| == |vs| && a <= |txs|
    ensures SpentBy(txs[..a], vs[..a]) <= SpentBy(txs, vs)
  {
    if a < |txs| {
      var n := |txs| - 1;
      SpentGrows(txs[..n], vs[..n], a);
      assert txs[..n][..a] == txs[..a] && vs[..n][..a] == vs[..a];
    } else {
      assert txs[..a] == txs && vs[..a] == vs;
    }
  }

  // Only accepted transactions pay.
  lemma {:induction false} PaidRest(ctx: Context, txs: seq<Tx>, vs: seq<Verdict>, a: nat)
    requires |txs| == |vs| && a <= |txs|
    requires Numbered(txs)
    requires forall i :: a <= i < |txs| ==> vs[i] != Accepted
    ensures Paid(ctx, txs[..a], vs[..a]) == Paid(ctx, txs, vs)
  {
    if a < |txs| {
      var n := |txs| - 1;
      PaidRest(ctx, txs[..n], vs[..n], a);
      assert txs[..n][..a] == txs[..a] && vs[..n][..a] == vs[..a];
    } else {
      assert txs[..a] == txs && vs[..a] == vs;
    }
  }

  lemma BalanceStep(all: nat, before: nat, paid: nat, gone: nat, kept: nat)
    requires all == before + paid && all == kept + gone
    ensures Sub64(Mod64(before) + paid, gone) == Mod64(kept)
  {
  }

  lemma FlowStep(received: UInt64, sent: UInt64, prev: UInt64, next: UInt64)
    requires prev == Sub64(received, sent)
    ensures prev < next ==> next == Sub64(Add64(received, next - prev), sent)
    ensures next < prev ==> next == Sub64(received, Add64(sent, prev - next))
  {
    ModCases(received - sent);
    if prev < next {
      ModCases(received + (next - prev));
      ModCases(Mod64(received + (next - prev)) - sent);
    } else {
      ModCases(sent + (prev - next));
      ModCases(received - Mod64(sent + (prev - next)));
    }
    hide Mod64;
  }

  lemma ModAgain(x: int, y: int)
    ensures Mod64(Mod64(x) + y) == Mod64(x + y) && Mod64(Mod64(x) - y) == Mod64(x - y)
  {
    ModSum(x, y);
    ModSum(x, -y);
    hide Mod64;
  }

  lemma ModSum(x: int, y: int)
    ensures Mod64(Mod64(x) + y) == Mod64(x + y)
  {
    var k := x / TWO_64;
    assert Mod64(x) + y == x + y - k * TWO_64;
  }

  lemma ModCases(x: int)
    requires 0 - TWO_64 < x < 2 * TWO_64
    ensures Mod64(x) == if x < 0 then x + TWO_64 else if x < TWO_64 then x else x - TWO_64
  {
  }

  // The balance is the sum of the listed outputs, and what was received less what was sent, in 64 bits.
  ghost predicate Balanced(ctx: Context, s: State) {
    && s.balance == s.prevBalance == Mod64(Total(ctx, s.utxos))
    && s.balance == Sub64(s.totalReceived, s.totalSent)
  }

  lemma RelistedTotal(ctx: Context, utxos: seq<OutPoint>, spent: set<OutPoint>, tx: Tx)
    requires |tx.outputs| <= UINT32_MAX
    ensures Rebalanced(ctx, Mod64(Total(ctx, utxos)), utxos, spent, tx)
         == Mod64(Total(ctx, Relisted(ctx, utxos, spent, tx)))
  {
    hide *;
    var paid, more := WalletOutputs(ctx, tx, |tx.outputs|), spent + InputsOf(tx);
    var ops := utxos + paid;
    RelistedIs(ctx, Mod64(Total(ctx, utxos)), utxos, spent, tx);
    TotalAppend(ctx, utxos, paid);
    TotalSplit(ctx, ops, more);
    BalanceStep(Total(ctx, ops), Total(ctx, utxos), Total(ctx, paid), Total(ctx, Spent(ops, more)),
      Total(ctx, Unspent(ops, more)));
  }

  lemma RelistedIs(ctx: Context, balance: UInt64, utxos: seq<OutPoint>, spent: set<OutPoint>, tx: Tx)
    requires |tx.outputs| <= UINT32_MAX
    ensures var ops, more := utxos + WalletOutputs(ctx, tx, |tx.outputs|), spent + InputsOf(tx);
      && Relisted(ctx, utxos, spent, tx) == Unspent(ops, more)
      && Rebalanced(ctx, balance, utxos, spent, tx) ==
           Sub64(balance + Total(ctx, WalletOutputs(ctx, tx, |tx.outputs|)), Total(ctx, Spent(ops, more)))
  {
    hide Total, Unspent, Spent, WalletOutputs, InputsOf, Sub64;
  }

  lemma AcceptBalanced(ctx: Context, s: State, tx: Tx)
    requires Balanced(ctx, s) && |tx.outputs| <= UINT32_MAX
    ensures Balanced(ctx, Accept(ctx, s, tx))
  {
    hide Total, Rebalanced, Relisted, InputsOf, Addresses, Sub64, Add64, Mod64;
    RelistedTotal(ctx, s.utxos, s.spent, tx);
    FlowStep(s.totalReceived, s.totalSent, s.prevBalance, Rebalanced(ctx, s.balance, s.utxos, s.spent, tx));
  }

  lemma {:induction false} RunBalance(ctx: Context, txs: seq<Tx>)
    requires Numbered(txs)
    ensures Balanced(ctx, Run(ctx, txs))
  {
    if txs != [] {
      var n := |txs| - 1;
      RunBalance(ctx, txs[..n]);
      AcceptBalanced(ctx, Run(ctx, txs[..n]), txs[n]);
      hide Accept, Judge, Total;
    }
  }

  lemma StepHistory(ctx: Context, s: State, tx: Tx)
    requires |tx.outputs| <= UINT32_MAX
    ensures Step(ctx, s, tx).hist == s.hist + [Step(ctx, s, tx).balance]
  {
  }

  // The history entry of a transaction is the balance with the list up to it.
  lemma {:induction false} RunHistory(ctx: Context, txs: seq<Tx>, i: nat)
    requires Numbered(txs) && i < |txs|
    ensures Numbered(txs[..i + 1])
    ensures |Run(ctx, txs).hist| == |txs| && Run(ctx, txs).hist[i] == Run(ctx, txs[..i + 1]).balance
  {
    var n := |txs| - 1;
    RunLast(ctx, txs);
    hide Run, Numbered, Step;
    StepHistory(ctx, Run(ctx, txs[..n]), txs[n]);
    if n > 0 {
      RunHistory(ctx, txs[..n], if i < n then i else 0);
    }
    if i < n {
      assert txs[..n][..i + 1] == txs[..i + 1];
    } else {
      assert txs[..i + 1] == txs;
    }
  }

  lemma RunLast(ctx: Context, txs: seq<Tx>)
    requires Numbered(txs) && txs != []
    ensures var n := |txs| - 1;
      && Numbered(txs[..n]) && |txs[n].outputs| <= UINT32_MAX && (n == 0 ==> |Run(ctx, txs[..n]).hist| == 0)
      && Run(ctx, txs) == Step(ctx, Run(ctx, txs[..n]), txs[n])
  {
    hide Step;
  }

  // The sum of the amounts by which a history of balances goes up, and by which it goes down, from zero on.
  function Rises(hist: seq<UInt64>): nat {
    if hist == [] then 0 else Rises(hist[..|hist| - 1]) + Above(hist[|hist| - 1], LastOf(hist[..|hist| - 1]))
  }

  function Falls(hist: seq<UInt64>): nat {
    if hist == [] then 0 else Falls(hist[..|hist| - 1]) + Above(LastOf(hist[..|hist| - 1]), hist[|hist| - 1])
  }

  function LastOf(hist: seq<UInt64>): UInt64 { if hist == [] then 0 else hist[|hist| - 1] }

  function Above(a: nat, b: nat): nat { if a > b then a - b else 0 }

  // What was received is the sum of the rises of the balance, and what was sent that of its falls, in 64 bits.
  lemma {:induction false} RunFlows(ctx: Context, txs: seq<Tx>)
    requires Numbered(txs)
    ensures var s := Run(ctx, txs);
      && LastOf(s.hist) == s.balance == s.prevBalance
      && s.totalReceived == Mod64(Rises(s.hist)) && s.totalSent == Mod64(Falls(s.hist))
  {
    hide *;
    if txs == [] {
      RunNone(ctx);
      NoFlows();
    } else {
      RunLast(ctx, txs);
      RunFlows(ctx, txs[..|txs| - 1]);
      StepFlows(ctx, Run(ctx, txs[..|txs| - 1]), txs[|txs| - 1]);
    }
  }

  lemma NoFlows()
    ensures LastOf(EMPTY.hist) == EMPTY.balance == EMPTY.prevBalance
    ensures EMPTY.totalReceived == Mod64(Rises(EMPTY.hist)) && EMPTY.totalSent == Mod64(Falls(EMPTY.hist))
  {
  }

  lemma StepFlows(ctx: Context, s: State, tx: Tx)
    requires |tx.outputs| <= UINT32_MAX && LastOf(s.hist) == s.balance == s.prevBalance
    requires s.totalReceived == Mod64(Rises(s.hist)) && s.totalSent == Mod64(Falls(s.hist))
    ensures var s' := Step(ctx, s, tx);
      && LastOf(s'.hist) == s'.balance == s'.prevBalance
      && s'.totalReceived == Mod64(Rises(s'.hist)) && s'.totalSent == Mod64(Falls(s'.hist))
  {
    hide *;
    var s' := Step(ctx, s, tx);
    StepBalance(ctx, s, tx);
    FlowsNext(s.hist, s'.balance);
    ModAgain(Rises(s.hist), Above(s'.balance, s.balance));
    ModAgain(Falls(s.hist), Above(s.balance, s'.balance));
  }

  lemma StepBalance(ctx: Context, s: State, tx: Tx)
    requires |tx.outputs| <= UINT32_MAX && s.balance == s.prevBalance
    ensures var s' := Step(ctx, s, tx);
      && s'.hist == s.hist + [s'.balance] && s'.balance == s'.prevBalance
      && s'.totalReceived == Mod64(s.totalReceived + Above(s'.balance, s.balance))
      && s'.totalSent == Mod64(s.totalSent + Above(s.balance, s'.balance))
  {
    ModSmall(s.totalReceived);
    ModSmall(s.totalSent);
    hide Judge, Rebalanced, Relisted, InputsOf, Addresses, Mod64;
  }

  lemma FlowsNext(hist: seq<UInt64>, balance: UInt64)
    ensures LastOf(hist + [balance]) == balance
    ensures Rises(hist + [balance]) == Rises(hist) + Above(balance, LastOf(hist))
    ensures Falls(hist + [balance]) == Falls(hist) + Above(LastOf(hist), balance)
  {
    assert (hist + [balance])[..|hist|] == hist;
  }

  lemma ModSmall(x: UInt64)
    ensures Mod64(x) == x
  {
  }

  // Used are exactly the addresses of outputs of accepted transactions.
  lemma {:induction false} RunUsed(ctx: Context, txs: seq<Tx>, a: string)
    requires Numbered(txs)
    ensures a in Run(ctx, txs).used <==> a != "" && exists i: nat :: NamesAt(txs, Verdicts(ctx, txs), i, a)
  {
    hide *;
    if txs == [] {
      RunNone(ctx);
      NoneNamed(a);
    } else {
      var n := |txs| - 1;
      RunLast(ctx, txs);
      RunUsed(ctx, txs[..n], a);
      RunMeaning(ctx, txs[..n]);
      MeetsParts(ctx, Run(ctx, txs[..n]), txs[..n], Verdicts(ctx, txs[..n]));
      VerdictsLast(ctx, txs, Run(ctx, txs[..n]));
      StepUsed(ctx, Run(ctx, txs[..n]), txs[n], a);
      assert Verdicts(ctx, txs)[..n] == Verdicts(ctx, txs[..n]);
      NamedNext(txs, Verdicts(ctx, txs), a);
    }
  }

  ghost predicate NamesAt(txs: seq<Tx>, vs: seq<Verdict>, i: nat, a: string) {
    i < |txs| == |vs| && vs[i] == Accepted && Names(txs[i], a)
  }

  ghost predicate Names(tx: Tx, a: string) { exists n :: 0 <= n < |tx.outputs| && tx.outputs[n].address == a }

  lemma NoneNamed(a: string)
    ensures a !in EMPTY.used && forall i: nat, vs: seq<Verdict> :: !NamesAt([], vs, i, a)
  {
  }

  lemma NamedNext(txs: seq<Tx>, vs: seq<Verdict>, a: string)
    requires txs != [] && |txs| == |vs|
    ensures var n := |txs| - 1;
      (exists i: nat :: NamesAt(txs, vs, i, a)) <==>
        (exists i: nat :: NamesAt(txs[..n], vs[..n], i, a)) || (vs[n] == Accepted && Names(txs[n], a))
  {
    var n := |txs| - 1;
    hide Names;
    forall i: nat | i < n ensures NamesAt(txs, vs, i, a) <==> NamesAt(txs[..n], vs[..n], i, a) {
    }
    if vs[n] == Accepted && Names(txs[n], a) { assert NamesAt(txs, vs, n, a); }
  }

  lemma StepUsed(ctx: Context, s: State, tx: Tx, a: string)
    requires |tx.outputs| <= UINT32_MAX
    ensures a in Step(ctx, s, tx).used <==>
      a in s.used || (Judge(ctx, tx, s.spent, s.invalid, s.pending) == Accepted && a != "" && Names(tx, a))
  {
    hide Judge, Rebalanced, Relisted, InputsOf;
  }

  // ---- what the verdicts mean ----

  // The verdict on a transaction, given the first i of a list and the verdicts on them.
  function JudgeAfter(ctx: Context, tx: Tx, txs: seq<Tx>, vs: seq<Verdict>, i: nat): Verdict
    requires i <= |txs| == |vs|
  {
    Judge(ctx, tx, SpentBy(txs[..i], vs[..i]), Hashes(txs[..i], vs[..i], Invalid), Hashes(txs[..i], vs[..i], Pending))
  }

  lemma {:induction false} VerdictAt(ctx: Context, txs: seq<Tx>, i: nat)
    requires i < |txs|
    ensures Verdicts(ctx, txs)[..i] == Verdicts(ctx, txs[..i])
    ensures Verdicts(ctx, txs)[i] == JudgeAfter(ctx, txs[i], txs, Verdicts(ctx, txs), i)
    decreases |txs|
  {
    hide *;
    var n := |txs| - 1;
    var vs, before := Verdicts(ctx, txs), Verdicts(ctx, txs[..n]);
    VerdictsNext(ctx, txs);
    assert vs[..n] == before;
    if i < n {
      VerdictAt(ctx, txs[..n], i);
      JudgeShorter(ctx, txs[i], txs, vs, i, n);
      assert txs[..n][..i] == txs[..i] && before[..i] == vs[..i];
    }
  }

  lemma VerdictsNext(ctx: Context, txs: seq<Tx>)
    requires txs != []
    ensures var n := |txs| - 1;
      && |Verdicts(ctx, txs)| == |txs| && |Verdicts(ctx, txs[..n])| == n
      && Verdicts(ctx, txs)[..n] == Verdicts(ctx, txs[..n])
      && Verdicts(ctx, txs)[n] == JudgeAfter(ctx, txs[n], txs, Verdicts(ctx, txs), n)
  {
    hide Judge, SpentBy, Hashes;
  }

  lemma JudgeShorter(ctx: Context, tx: Tx, txs: seq<Tx>, vs: seq<Verdict>, i: nat, n: nat)
    requires i <= n <= |txs| == |vs|
    ensures JudgeAfter(ctx, tx, txs[..n], vs[..n], i) == JudgeAfter(ctx, tx, txs, vs, i)
  {
    assert txs[..n][..i] == txs[..i] && vs[..n][..i] == vs[..i];
    hide Judge, SpentBy, Hashes;
  }

  // An earlier transaction that is not invalid spends the same output as input j of transaction i.
  ghost predicate SpendsAgain(txs: seq<Tx>, vs: seq<Verdict>, i: nat, j: nat)
    requires i < |txs| == |vs| && j < |txs[i].inputs|
  {
    exists k, m :: 0 <= k < i && vs[k] != Invalid && 0 <= m < |txs[k].inputs|
      && txs[k].inputs[m].txHash == txs[i].inputs[j].txHash && txs[k].inputs[m].index == txs[i].inputs[j].index
  }

  // Input j of transaction i spends an earlier transaction with verdict v.
  ghost predicate SpendsA(txs: seq<Tx>, vs: seq<Verdict>, v: Verdict, i: nat, j: nat)
    requires i < |txs| == |vs| && j < |txs[i].inputs|
  {
    exists k :: 0 <= k < i && vs[k] == v && txs[k].txHash == txs[i].inputs[j].txHash
  }

  // Exactly the unconfirmed transactions are invalid that spend an output again, or an invalid transaction.
  lemma InvalidIff(ctx: Context, txs: seq<Tx>, i: nat)
    requires i < |txs|
    ensures var vs := Verdicts(ctx, txs);
      vs[i] == Invalid <==>
        && txs[i].blockHeight == 0x7fff_ffff
        && exists j: nat :: j < |txs[i].inputs| && (SpendsAgain(txs, vs, i, j) || SpendsA(txs, vs, Invalid, i, j))
  {
    var vs := Verdicts(ctx, txs);
    VerdictAt(ctx, txs, i);
    forall j: nat | j < |txs[i].inputs|
      ensures BadInput(txs[i].inputs[j], SpentBy(txs[..i], vs[..i]), Hashes(txs[..i], vs[..i], Invalid)) <==>
        SpendsAgain(txs, vs, i, j) || SpendsA(txs, vs, Invalid, i, j)
    {
      SpentIff(txs, vs, i, j);
      HashIff(txs, vs, Invalid, i, j);
    }
    hide SpentBy, Hashes, Verdicts, IsPending;
  }

  // So nothing is spent twice by what counts, confirmed transactions aside.
  lemma SpentOnce(ctx: Context, txs: seq<Tx>, k: nat, i: nat)
    requires k < i < |txs| && txs[i].blockHeight == 0x7fff_ffff
    requires Verdicts(ctx, txs)[k] != Invalid && Verdicts(ctx, txs)[i] != Invalid
    ensures forall m: nat, j: nat :: m < |txs[k].inputs| && j < |txs[i].inputs| ==>
      (txs[k].inputs[m].txHash, txs[k].inputs[m].index) != (txs[i].inputs[j].txHash, txs[i].inputs[j].index)
  {
    InvalidIff(ctx, txs, i);
    hide Verdicts;
    forall m: nat, j: nat | m < |txs[k].inputs| && j < |txs[i].inputs|
      ensures (txs[k].inputs[m].txHash, txs[k].inputs[m].index) != (txs[i].inputs[j].txHash, txs[i].inputs[j].index)
    {
      assert !SpendsAgain(txs, Verdicts(ctx, txs), i, j);
    }
  }

  // Exactly the other unconfirmed ones are pending that are larger than 100000 bytes, pay less than 546 satoshi, can be
  // replaced, are locked unless their inputs ignore it, or spend a pending one.
  lemma PendingIff(ctx: Context, txs: seq<Tx>, i: nat)
    requires i < |txs|
    ensures var vs, tx := Verdicts(ctx, txs), txs[i];
      vs[i] == Pending <==>
        && vs[i] != Invalid && tx.blockHeight == 0x7fff_ffff
        && (|| TxSize(tx) > 100000
            || (exists j :: 0 <= j < |tx.outputs| && tx.outputs[j].amount < 546)
            || (exists j: nat :: j < |tx.inputs| && HeldBack(ctx, tx.lockTime, tx.inputs[j].sequence))
            || (exists j: nat :: j < |tx.inputs| && SpendsA(txs, vs, Pending, i, j)))
  {
    var vs, tx := Verdicts(ctx, txs), txs[i];
    VerdictAt(ctx, txs, i);
    var pending := Hashes(txs[..i], vs[..i], Pending);
    forall j: nat | j < |tx.inputs|
      ensures IsOpen(ctx, tx.lockTime, tx.inputs[j], pending) <==>
        HeldBack(ctx, tx.lockTime, tx.inputs[j].sequence) || SpendsA(txs, vs, Pending, i, j)
    {
      HashIff(txs, vs, Pending, i, j);
    }
    assert forall j :: 0 <= j < |tx.outputs| ==> (IsDust(tx.outputs[j]) <==> tx.outputs[j].amount < 546);
    hide SpentBy, Hashes, Verdicts, IsInvalid, SpendsA, IsOpen, HeldBack, TxSize;
  }

  // An input with the last sequence ignores the lock, and one before the last but one can be replaced.
  ghost predicate HeldBack(ctx: Context, lockTime: UInt32, sequence: UInt32) {
    sequence < 0xffff_fffe || (sequence == 0xffff_fffe && IsLocked(ctx, lockTime))
  }

  ghost predicate IsLocked(ctx: Context, lockTime: UInt32) {
    (lockTime < 500000000 && lockTime > (ctx.blockHeight + 1) % 0x1_0000_0000) || lockTime > ctx.now
  }

  // By any clock after 1985, lock times below 500000000 are heights and the others are times; that of the block after the
  // next one is the first height that is locked.
  lemma LockedIff(ctx: Context, lockTime: UInt32)
    requires ctx.now >= 500000000 && ctx.blockHeight < UINT32_MAX
    ensures IsLocked(ctx, lockTime) <==> lockTime > if lockTime < 500000000 then ctx.blockHeight + 1 else ctx.now
  {
  }

  // What was spent or judged before transaction i, of which input j is asked for.
  lemma SpentIff(txs: seq<Tx>, vs: seq<Verdict>, i: nat, j: nat)
    requires i < |txs| == |vs| && j < |txs[i].inputs|
    ensures txs[i].inputs[j].Spends() in SpentBy(txs[..i], vs[..i]) <==> SpendsAgain(txs, vs, i, j)
  {
    var op := txs[i].inputs[j].Spends();
    SpentRest(txs[..i], vs[..i], 0, op);
    assert txs[..i][..0] == [] && vs[..i][..0] == [];
    hide SpentBy;
  }

  lemma {:induction false} HashIff(txs: seq<Tx>, vs: seq<Verdict>, v: Verdict, i: nat, j: nat)
    requires i < |txs| == |vs| && j < |txs[i].inputs|
    ensures txs[i].inputs[j].txHash in Hashes(txs[..i], vs[..i], v) <==> SpendsA(txs, vs, v, i, j)
  {
    HashesIff(txs[..i], vs[..i], v, txs[i].inputs[j].txHash);
    hide Hashes;
  }

  lemma {:induction false} HashesIff(txs: seq<Tx>, vs: seq<Verdict>, v: Verdict, h: Hash)
    requires |txs| == |vs|
    ensures h in Hashes(txs, vs, v) <==> exists k :: 0 <= k < |txs| && vs[k] == v && txs[k].txHash == h
  {
    if txs != [] {
      var n := |txs| - 1;
      HashesIff(txs[..n], vs[..n], v, h);
    }
  }

  // ---- what is listed ----

  // Output n of transaction i pays to an address of the wallet, and the transaction is accepted.
  ghost predicate PaysAt(ctx: Context, txs: seq<Tx>, vs: seq<Verdict>, i: nat, n: nat) {
    && i < |txs| == |vs| && n < |txs[i].outputs| && vs[i] == Accepted
    && txs[i].outputs[n].address != "" && txs[i].outputs[n].address in ctx.allAddrs
  }

  // Input m of transaction k, which is not invalid, spends an output.
  ghost predicate SpendsAt(txs: seq<Tx>, vs: seq<Verdict>, op: OutPoint, k: nat, m: nat) {
    && k < |txs| == |vs| && m < |txs[k].inputs| && vs[k] != Invalid
    && txs[k].inputs[m].txHash == op.hash && txs[k].inputs[m].index == op.n
  }

  // Listed are exactly the outputs of accepted transactions to the wallet that are spent by none but invalid
  // transactions and such that none behind is accepted.
  lemma UtxosIff(ctx: Context, txs: seq<Tx>, op: OutPoint)
    requires Numbered(txs)
    ensures var vs := Verdicts(ctx, txs);
      op in Run(ctx, txs).utxos <==>
        && (exists i: nat :: i < |txs| && txs[i].txHash == op.hash && PaysAt(ctx, txs, vs, i, op.n))
        && (forall k: nat, m: nat :: SpendsAt(txs, vs, op, k, m) ==> forall j :: k <= j < |txs| ==> vs[j] != Accepted)
  {
    hide *;
    var s, vs := Run(ctx, txs), Verdicts(ctx, txs);
    var a := LastAccepted(vs);
    RunMeaning(ctx, txs);
    MeetsUtxos(ctx, s, txs, vs);
    UnspentMember(Paid(ctx, txs[..a], vs[..a]), SpentBy(txs[..a], vs[..a]), op);
    PaidRest(ctx, txs, vs, a);
    PaidIff(ctx, txs, vs, op);
    SpentByIff(txs, vs, op, a);
  }

  lemma MeetsUtxos(ctx: Context, s: State, txs: seq<Tx>, vs: seq<Verdict>)
    requires Meets(ctx, s, txs, vs)
    ensures |txs| == |vs| && Numbered(txs) && Numbered(txs[..LastAccepted(vs)])
    ensures var a := LastAccepted(vs);
      s.utxos == Unspent(Paid(ctx, txs[..a], vs[..a]), SpentBy(txs[..a], vs[..a]))
  {
    hide Paid, SpentBy, Unspent, Hashes;
  }

  lemma {:induction false} PaidIff(ctx: Context, txs: seq<Tx>, vs: seq<Verdict>, op: OutPoint)
    requires |txs| == |vs| && Numbered(txs)
    ensures op in Paid(ctx, txs, vs) <==> exists i: nat :: i < |txs| && txs[i].txHash == op.hash && PaysAt(ctx, txs, vs, i, op.n)
  {
    if txs != [] {
      var n := |txs| - 1;
      PaidIff(ctx, txs[..n], vs[..n], op);
      forall i: nat | i < n ensures PaysAt(ctx, txs[..n], vs[..n], i, op.n) <==> PaysAt(ctx, txs, vs, i, op.n) {
      }
      WalletOutputsIff(ctx, txs[n], |txs[n].outputs|, op);
      hide WalletOutputs;
    }
  }

  lemma {:induction false} WalletOutputsIff(ctx: Context, tx: Tx, k: nat, op: OutPoint)
    requires k <= |tx.outputs| <= UINT32_MAX
    ensures op in WalletOutputs(ctx, tx, k) <==>
      && op.hash == tx.txHash && op.n < k && tx.outputs[op.n].address != ""
      && tx.outputs[op.n].address in ctx.allAddrs
  {
    if k > 0 { WalletOutputsIff(ctx, tx, k - 1, op); }
  }

  lemma SpentByIff(txs: seq<Tx>, vs: seq<Verdict>, op: OutPoint, a: nat)
    requires |txs| == |vs| && a == LastAccepted(vs)
    ensures op !in SpentBy(txs[..a], vs[..a]) <==>
      forall k: nat, m: nat :: SpendsAt(txs, vs, op, k, m) ==> forall j :: k <= j < |txs| ==> vs[j] != Accepted
  {
    hide *;
    SpentBefore(txs, vs, op, a);
    LastAcceptedIs(vs);
    if k: nat, m: nat :| SpendsAt(txs, vs, op, k, m) && k < a {
      InRange(txs, vs, op, k, m);
      assert k <= a - 1 < |txs| && vs[a - 1] == Accepted;
    }
    forall k: nat, m: nat | SpendsAt(txs, vs, op, k, m) && k >= a
      ensures forall j :: k <= j < |txs| ==> vs[j] != Accepted
    {
    }
  }

  lemma InRange(txs: seq<Tx>, vs: seq<Verdict>, op: OutPoint, k: nat, m: nat)
    requires SpendsAt(txs, vs, op, k, m)
    ensures k < |txs| == |vs|
  {
  }

  lemma LastAcceptedIs(vs: seq<Verdict>)
    ensures var a := LastAccepted(vs);
      a <= |vs| && (a > 0 ==> vs[a - 1] == Accepted) && forall i :: a <= i < |vs| ==> vs[i] != Accepted
  {
  }

  lemma SpentBefore(txs: seq<Tx>, vs: seq<Verdict>, op: OutPoint, a: nat)
    requires a <= |txs| == |vs|
    ensures op in SpentBy(txs[..a], vs[..a]) <==> exists k: nat, m: nat :: SpendsAt(txs, vs, op, k, m) && k < a
  {
    SpentRest(txs[..a], vs[..a], 0, op);
    assert txs[..a][..0] == [] && vs[..a][..0] == [];
    assert op !in SpentBy([], []);
    hide SpentBy, SpendsAt, InputsOf;
    forall k: nat | k < a
      ensures vs[k] != Invalid && op in InputsOf(txs[k]) <==> exists m: nat :: SpendsAt(txs, vs, op, k, m)
    {
      SpendsIn(txs, vs, op, k);
    }
    if op in SpentBy(txs[..a], vs[..a]) {
      var k :| 0 <= k < a && vs[..a][k] != Invalid && op in InputsOf(txs[..a][k]);
      assert exists m: nat :: SpendsAt(txs, vs, op, k, m);
    }
    if k: nat, m: nat :| SpendsAt(txs, vs, op, k, m) && k < a {
      assert vs[..a][k] != Invalid && op in InputsOf(txs[..a][k]);
    }
  }

  lemma SpendsIn(txs: seq<Tx>, vs: seq<Verdict>, op: OutPoint, k: nat)
    requires k < |txs| == |vs|
    ensures vs[k] != Invalid && op in InputsOf(txs[k]) <==> exists m: nat :: SpendsAt(txs, vs, op, k, m)
  {
    if m: nat :| m < |txs[k].inputs| && txs[k].inputs[m].Spends() == op && vs[k] != Invalid {
      assert SpendsAt(txs, vs, op, k, m);
    }
  }

  // What is spent, invalid and pending at the end.
  lemma RunSets(ctx: Context, txs: seq<Tx>, op: OutPoint, h: Hash)
    requires Numbered(txs)
    ensures var s, vs := Run(ctx, txs), Verdicts(ctx, txs);
      && (op in s.spent <==> exists k: nat, m: nat :: SpendsAt(txs, vs, op, k, m))
      && (h in s.invalid <==> exists k: nat :: k < |txs| && vs[k] == Invalid && txs[k].txHash == h)
      && (h in s.pending <==> exists k: nat :: k < |txs| && vs[k] == Pending && txs[k].txHash == h)
  {
    hide *;
    var s, vs := Run(ctx, txs), Verdicts(ctx, txs);
    RunMeaning(ctx, txs);
    MeetsParts(ctx, s, txs, vs);
    MeetsIs(ctx, s, txs, vs);
    SpentBefore(txs, vs, op, |txs|);
    assert txs[..|txs|] == txs && vs[..|vs|] == vs;
    forall k: nat, m: nat | SpendsAt(txs, vs, op, k, m) ensures k < |txs| {
      InRange(txs, vs, op, k, m);
    }
    HashesIff(txs, vs, Invalid, h);
    HashesIff(txs, vs, Pending, h);
  }

  predicate NoRepeats(ops: seq<OutPoint>) { forall i, j :: 0 <= i < j < |ops| ==> ops[i] != ops[j] }

  // No output is listed twice.
  lemma UtxosOnce(ctx: Context, txs: seq<Tx>)
    requires Numbered(txs) && forall i, j :: 0 <= i < j < |txs| ==> txs[i].txHash != txs[j].txHash
    ensures NoRepeats(Run(ctx, txs).utxos)
  {
    hide *;
    var s, vs := Run(ctx, txs), Verdicts(ctx, txs);
    var a := LastAccepted(vs);
    RunMeaning(ctx, txs);
    MeetsUtxos(ctx, s, txs, vs);
    PaidOnce(ctx, txs[..a], vs[..a]);
    UnspentOnce(Paid(ctx, txs[..a], vs[..a]), SpentBy(txs[..a], vs[..a]));
  }

  lemma {:induction false} PaidOnce(ctx: Context, txs: seq<Tx>, vs: seq<Verdict>)
    requires |txs| == |vs| && Numbered(txs) && forall i, j :: 0 <= i < j < |txs| ==> txs[i].txHash != txs[j].txHash
    ensures NoRepeats(Paid(ctx, txs, vs))
  {
    if txs != [] {
      var n := |txs| - 1;
      PaidOnce(ctx, txs[..n], vs[..n]);
      WalletOutputsOnce(ctx, txs[n], |txs[n].outputs|);
      var before, own := Paid(ctx, txs[..n], vs[..n]), WalletOutputs(ctx, txs[n], |txs[n].outputs|);
      hide Paid, WalletOutputs, NoRepeats;
      forall op | op in before ensures op !in own {
        PaidIff(ctx, txs[..n], vs[..n], op);
        WalletOutputsIff(ctx, txs[n], |txs[n].outputs|, op);
      }
      NoRepeatsBoth(before, own);
      NoRepeatsBoth(before, []);
      PaidNext(ctx, txs, vs);
    }
  }

  lemma PaidNext(ctx: Context, txs: seq<Tx>, vs: seq<Verdict>)
    requires |txs| == |vs| && Numbered(txs) && txs != []
    ensures var n := |txs| - 1;
      Paid(ctx, txs, vs) == Paid(ctx, txs[..n], vs[..n])
        + if vs[n] == Accepted then WalletOutputs(ctx, txs[n], |txs[n].outputs|) else []
  {
  }

  lemma NoRepeatsBoth(a: seq<OutPoint>, b: seq<OutPoint>)
    requires NoRepeats(a) && (b == [] || NoRepeats(b)) && forall op :: op in a ==> op !in b
    ensures NoRepeats(a + b)
  {
    forall i, j | 0 <= i < j < |a + b| ensures (a + b)[i] != (a + b)[j] {
      assert i < |a| ==> a[i] in a;
    }
  }

  lemma {:induction false} WalletOutputsOnce(ctx: Context, tx: Tx, k: nat)
    requires k <= |tx.outputs| <= UINT32_MAX
    ensures NoRepeats(WalletOutputs(ctx, tx, k))
  {
    if k > 0 {
      WalletOutputsOnce(ctx, tx, k - 1);
      WalletOutputsIff(ctx, tx, k - 1, OutPoint(tx.txHash, k - 1));
    }
  }

  lemma {:induction false} UnspentOnce(ops: seq<OutPoint>, spent: set<OutPoint>)
    requires NoRepeats(ops)
    ensures NoRepeats(Unspent(ops, spent))
  {
    if ops != [] {
      var n := |ops| - 1;
      UnspentOnce(ops[..n], spent);
      UnspentMember(ops[..n], spent, ops[n]);
    }
  }

  // ---- unspent outputs that are spent ----

  lemma {:induction false} SpentRest(txs: seq<Tx>, vs: seq<Verdict>, a: nat, op: OutPoint)
    requires |txs| == |vs| && a <= |txs|
    ensures op in SpentBy(txs, vs) <==>
      op in SpentBy(txs[..a], vs[..a]) || exists i :: a <= i < |txs| && vs[i] != Invalid && op in InputsOf(txs[i])
  {
    if a < |txs| {
      var n := |txs| - 1;
      SpentRest(txs[..n], vs[..n], a, op);
      assert txs[..n][..a] == txs[..a] && vs[..n][..a] == vs[..a];
    } else {
      assert txs[..a] == txs && vs[..a] == vs;
    }
  }

  // The list of unspent outputs is only pruned when a transaction is accepted. An output on it that is spent is
  // spent by a pending transaction behind the last accepted one; there is one exactly when such a transaction
  // spends a listed output.
  lemma StaleIff(ctx: Context, txs: seq<Tx>)
    requires Numbered(txs)
    ensures var s := Run(ctx, txs);
      (exists op :: op in s.utxos && op in s.spent) <==> exists i, op :: IsStale(ctx, txs, i, op)
  {
    var s, vs := Run(ctx, txs), Verdicts(ctx, txs);
    var a := LastAccepted(vs);
    RunMeaning(ctx, txs);
    hide Verdicts, Run, Judge, Paid, InputsOf, Hashes, LastAccepted;
    if op :| op in s.utxos && op in s.spent {
      SpentRest(txs, vs, a, op);
      UnspentMember(Paid(ctx, txs[..a], vs[..a]), SpentBy(txs[..a], vs[..a]), op);
      hide SpentBy, Unspent;
      var i :| a <= i < |txs| && vs[i] != Invalid && op in InputsOf(txs[i]);
      assert IsStale(ctx, txs, i, op);
    }
    if i, op :| IsStale(ctx, txs, i, op) {
      SpentRest(txs, vs, a, op);
      hide SpentBy, Listed;
      assert op in s.utxos && op in s.spent;
    }
  }

  // A transaction behind the last accepted one is pending, and spends an output that is on the list then.
  ghost predicate IsStale(ctx: Context, txs: seq<Tx>, i: nat, op: OutPoint)
    requires Numbered(txs)
  {
    var vs := Verdicts(ctx, txs);
    var a := LastAccepted(vs);
    a <= i < |txs| && vs[i] == Pending && op in InputsOf(txs[i]) && op in Listed(ctx, txs[..a], vs[..a])
  }

  // A confirmed transaction leaves its wallet output on the list.
  lemma ReceiveOne(ctx: Context, tx: Tx)
    requires tx.blockHeight != TX_UNCONFIRMED && |tx.outputs| == 1 && Pays(ctx, tx.outputs[0])
    requires OutPoint(tx.txHash, 0) !in InputsOf(tx)
    ensures var s := Run(ctx, [tx]);
      && Verdicts(ctx, [tx]) == [Accepted]
      && s.utxos == [OutPoint(tx.txHash, 0)] && s.spent == InputsOf(tx) && s.invalid == {} && s.pending == {}
  {
    var op := OutPoint(tx.txHash, 0);
    assert [tx][..0] == [] && [op][..0] == [];
    assert Judge(ctx, tx, {}, {}, {}) == Accepted;
    assert Verdicts(ctx, [tx]) == [] + [Accepted];
    assert Run(ctx, [tx]) == Accept(ctx, EMPTY, tx);
    assert WalletOutputs(ctx, tx, 0) == [];
    assert WalletOutputs(ctx, tx, 1) == [op];
    assert EMPTY.utxos + [op] == [op];
    hide InputsOf;
    assert EMPTY.spent + InputsOf(tx) == InputsOf(tx);
    assert Unspent([op], InputsOf(tx)) == Unspent([], InputsOf(tx)) + [op];
  }

  // A replaceable transaction that spends it afterwards is pending, and the output stays on the list.
  lemma SpendPending(ctx: Context, receive: Tx, spend: Tx)
    requires receive.blockHeight != TX_UNCONFIRMED && |receive.outputs| == 1 && Pays(ctx, receive.outputs[0])
    requires OutPoint(receive.txHash, 0) !in InputsOf(receive)
    requires spend.blockHeight == TX_UNCONFIRMED && |spend.outputs| <= UINT32_MAX && |spend.inputs| == 1
    requires spend.inputs[0].Spends() == OutPoint(receive.txHash, 0) && spend.inputs[0].sequence < UINT32_MAX - 1
    ensures var s := Run(ctx, [receive, spend]);
      s.utxos == [OutPoint(receive.txHash, 0)] && OutPoint(receive.txHash, 0) in s.spent
  {
    hide Run, Verdicts, InputsOf;
    ReceiveOne(ctx, receive);
    assert [receive, spend][..1] == [receive];
    RunLast(ctx, [receive, spend]);
    var s := Run(ctx, [receive]);
    SpendsFirst(spend);
    assert IsOpen(ctx, spend.lockTime, spend.inputs[0], s.pending);
    assert Judge(ctx, spend, s.spent, s.invalid, s.pending) == Pending;
  }

  lemma SpendsFirst(tx: Tx)
    requires tx.inputs != []
    ensures tx.inputs[0].Spends() in InputsOf(tx)
  {
  }

  const RECEIVE := Tx(1, 1, [Input(9, 0, 0, [], Some([]), UINT32_MAX)], [Output("a", 600000, [])], 0, 100, 0)
  const SPEND := Tx(2, 1, [Input(1, 0, 0, [], Some([]), 0)], [Output("b", 590000, [])], 0, TX_UNCONFIRMED, 0)
  const EXAMPLE := Context(map[1 := RECEIVE, 2 := SPEND], {"a"}, 100, 0)

  lemma StaleExample()
    ensures Registered(EXAMPLE, [RECEIVE, SPEND]) && Numbered([RECEIVE, SPEND])
    ensures OutPoint(1, 0) in Run(EXAMPLE, [RECEIVE, SPEND]).utxos
    ensures OutPoint(1, 0) in Run(EXAMPLE, [RECEIVE, SPEND]).spent
  {
    hide Run;
    SpendPending(EXAMPLE, RECEIVE, SPEND);
  }

  // ---- every listed output can be looked up ----

  ghost predicate AllKnown(ctx: Context, ops: seq<OutPoint>) {
    forall i :: 0 <= i < |ops| ==> Known(ctx, ops[i])
  }

  lemma {:induction false} WalletOutputsKnown(ctx: Context, tx: Tx, k: nat)
    requires IsRegistered(ctx, tx) && k <= |tx.outputs|
    ensures AllKnown(ctx, WalletOutputs(ctx, tx, k))
  {
    if k > 0 {
      WalletOutputsKnown(ctx, tx, k - 1);
    }
  }

  lemma {:induction false} UnspentKnown(ctx: Context, ops: seq<OutPoint>, spent: set<OutPoint>)
    requires AllKnown(ctx, ops)
    ensures AllKnown(ctx, Unspent(ops, spent))
  {
    if ops != [] {
      UnspentKnown(ctx, ops[..|ops| - 1], spent);
    }
  }

  lemma {:induction false} RunKnown(ctx: Context, txs: seq<Tx>)
    requires Numbered(txs) && Registered(ctx, txs)
    ensures AllKnown(ctx, Run(ctx, txs).utxos)
  {
    if txs != [] {
      var n := |txs| - 1;
      RunKnown(ctx, txs[..n]);
      var s := Run(ctx, txs[..n]);
      assert IsRegistered(ctx, txs[n]);
      WalletOutputsKnown(ctx, txs[n], |txs[n].outputs|);
      UnspentKnown(ctx, s.utxos + WalletOutputs(ctx, txs[n], |txs[n].outputs|), s.spent + InputsOf(txs[n]));
      hide Judge, Unspent, WalletOutputs, Known;
    }
  }

  // The balance is the sum of the amounts of the listed outputs, in 64 bits.
  lemma RunWorth(ctx: Context, txs: seq<Tx>)
    requires Numbered(txs) && Registered(ctx, txs)
    ensures AllKnown(ctx, Run(ctx, txs).utxos)
    ensures Run(ctx, txs).balance == Sum(Amounts(ctx, Run(ctx, txs).utxos)) % 0x1_0000_0000_0000_0000
  {
    hide *;
    RunKnown(ctx, txs);
    RunBalance(ctx, txs);
    BalancedIs(ctx, Run(ctx, txs));
    TotalSum(ctx, Run(ctx, txs).utxos);
  }

  lemma BalancedIs(ctx: Context, s: State)
    requires Balanced(ctx, s)
    ensures s.balance == Total(ctx, s.utxos) % 0x1_0000_0000_0000_0000
  {
    hide Total;
  }

  function Amounts(ctx: Context, ops: seq<OutPoint>): seq<nat>
    requires AllKnown(ctx, ops)
  {
    seq(|ops|, i requires 0 <= i < |ops| => assert Known(ctx, ops[i]); ctx.allTx[ops[i].hash].outputs[ops[i].n].amount)
  }

  function Sum(s: seq<nat>): nat { if s == [] then 0 else s[0] + Sum(s[1..]) }

  lemma {:induction false} SumAppend(s: seq<nat>, x: nat)
    ensures Sum(s + [x]) == Sum(s) + x
  {
    if s == [] {
      assert s + [x] == [x];
    } else {
      assert (s + [x])[1..] == s[1..] + [x];
      SumAppend(s[1..], x);
    }
  }

  lemma {:induction false} TotalSum(ctx: Context, ops: seq<OutPoint>)
    requires AllKnown(ctx, ops)
    ensures Total(ctx, ops) == Sum(Amounts(ctx, ops))
  {
    if ops != [] {
      var n := |ops| - 1;
      TotalSum(ctx, ops[..n]);
      assert Known(ctx, ops[n]);
      assert Amounts(ctx, ops) == Amounts(ctx, ops[..n]) + [Amount(ctx, ops[n])];
      SumAppend(Amounts(ctx, ops[..n]), Amount(ctx, ops[n]));
    }
  }
}
