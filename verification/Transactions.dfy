/**
 Indexer transactions to transaction objects (`map_transaction` and the functions it is made of), over
 trees of inner transactions of any depth.
 */
module Transactions {
  import opened Wrappers
  import opened Positional
  import opened Amounts

  const ZERO_ADDRESS := "AAAAAAAAAAAAAAAAAAAAAAAAAAAAAAAAAAAAAAAAAAAAAAAAAAAAY5HFKQ"

  /** The fields read from a transaction's typed sub-object, whichever type that is. */
  datatype Detail = Detail(receiver: Option<string>, amount: Option<nat>,
                           closeRemainderTo: Option<string>, closeTo: Option<string>, closeAmount: Option<nat>,
                           sender: Option<string>, assetId: Option<nat>, applicationId: Option<nat>,
                           address: Option<string>)

  const NO_DETAIL := Detail(None, None, None, None, None, None, None, None, None)

  /** `details` holds the typed sub-objects by their key, e.g. "payment-transaction". */
  datatype RawTx = RawTx(id: Option<string>, txType: Option<string>, details: map<string, Detail>,
                         confirmedRound: Option<nat>, sender: Option<string>, fee: Option<nat>,
                         closingAmount: Option<nat>, rekeyTo: Option<string>, group: Option<string>,
                         inner: seq<RawTx>)

  datatype Transfer = Transfer(assetId: Option<nat>, from: Option<string>, to: Option<string>, amount: string,
                               closeTo: Option<string>, isClawback: bool)

  datatype Close = Close(closesAccount: bool, closesAssetHolding: bool, closeRemainderTo: string,
                         closeAmount: string, closeAmountDecimal: Option<string>,
                         valueTotal: string, valueTotalDecimal: Option<string>, assetId: Option<nat>)

  datatype MappedTx = MappedTx(hash: Option<string>, blockNumber: Option<nat>, from: Option<string>, to: Option<string>,
                               value: string, valueDecimal: Option<string>,
                               close: Option<Close>, closesAccount: bool, valueTotal: string,
                               fee: string, feeDecimal: string, status: string, methodLabel: Option<string>,
                               txType: Option<string>, confirmations: Option<nat>, group: Option<string>,
                               rekeyTo: Option<string>, tokenTransfer: Option<Transfer>,
                               internalCount: nat, internal: seq<MappedTx>)

  /******* The mapper *******/

  /** `_clean`: the zero address means unset. */
  function Clean(address: Option<string>): Option<string> {
    if address == Some(ZERO_ADDRESS) then None else address
  }

  /** `TX_TYPE_DETAIL_KEY` */
  function DetailKey(txType: string): string {
    if txType == "pay" then "payment-transaction"
    else if txType == "axfer" then "asset-transfer-transaction"
    else if txType == "acfg" then "asset-config-transaction"
    else if txType == "afrz" then "asset-freeze-transaction"
    else if txType == "appl" then "application-transaction"
    else if txType == "keyreg" then "keyreg-transaction"
    else if txType == "stpf" then "state-proof-transaction"
    else if txType == "hb" then "heartbeat-transaction"
    else ""
  }

  /** `TX_TYPE_LABEL`, unknown types being their own label. */
  function Label(txType: Option<string>): Option<string> {
    var t := GetOr(txType, "");
    if t == "pay" then Some("Payment")
    else if t == "axfer" then Some("Asset Transfer")
    else if t == "acfg" then Some("Asset Configuration")
    else if t == "afrz" then Some("Asset Freeze")
    else if t == "appl" then Some("Application Call")
    else if t == "keyreg" then Some("Key Registration")
    else if t == "stpf" then Some("State Proof")
    else if t == "hb" then Some("Heartbeat")
    else txType
  }

  function DetailOf(tx: RawTx): Detail {
    var key := DetailKey(GetOr(tx.txType, ""));
    if key in tx.details then tx.details[key] else NO_DETAIL
  }

  /** `str(id) if id else None` */
  function IdOrNone(id: Option<nat>): Option<string> {
    if id.Some? && id.value != 0 then Some(NatStr(id.value)) else None
  }

  /** `_extract_movement`: counterparty, native value, token transfer. */
  function Movement(txType: Option<string>, detail: Detail): (Option<string>, nat, Option<Transfer>) {
    if txType == Some("pay") then
      (detail.receiver, GetOr(detail.amount, 0), None)
    else if txType == Some("axfer") then
      (detail.receiver, 0,
       Some(Transfer(detail.assetId, NonEmpty(detail.sender), detail.receiver, NatStr(GetOr(detail.amount, 0)),
                     Clean(detail.closeTo), NonEmpty(detail.sender).Some?)))
    else if txType == Some("appl") then (IdOrNone(detail.applicationId), 0, None)
    else if txType == Some("acfg") then (IdOrNone(detail.assetId), 0, None)
    else if txType == Some("afrz") then (detail.address, 0, None)
    else (None, 0, None)
  }

  /** `_extract_close` */
  function ExtractClose(txType: Option<string>, detail: Detail, tx: RawTx): Option<Close> {
    var amount := GetOr(detail.amount, 0);
    if txType == Some("pay") then
      var target := NonEmpty(Clean(detail.closeRemainderTo));
      if target.None? then None else
        var closeAmount := GetOr(detail.closeAmount, GetOr(tx.closingAmount, 0));
        Some(Close(true, false, target.value,
                   NatStr(closeAmount), Some(DecimalString(closeAmount, ALGO_DECIMALS)),
                   NatStr(amount + closeAmount), Some(DecimalString(amount + closeAmount, ALGO_DECIMALS)), None))
    else if txType == Some("axfer") then
      var target := NonEmpty(Clean(detail.closeTo));
      if target.None? then None else
        var closeAmount := GetOr(detail.closeAmount, 0);
        Some(Close(false, true, target.value, NatStr(closeAmount), None,
                   NatStr(amount + closeAmount), None, detail.assetId))
    else None
  }

  /** Everything in a mapped transaction but its inner transactions. */
  function MapNode(tx: RawTx, internal: seq<MappedTx>): MappedTx {
    var detail := DetailOf(tx);
    var (to, value, transfer) := Movement(tx.txType, detail);
    var close := ExtractClose(tx.txType, detail, tx);
    var fee := GetOr(tx.fee, 0);
    MappedTx(tx.id, tx.confirmedRound, tx.sender, NonEmpty(to),
             NatStr(value), if tx.txType == Some("pay") then Some(DecimalString(value, ALGO_DECIMALS)) else None,
             close, close.Some? && close.value.closesAccount,
             if close.Some? then close.value.valueTotal else NatStr(value),
             NatStr(fee), DecimalString(fee, ALGO_DECIMALS),
             if GetOr(tx.confirmedRound, 0) != 0 then "ok" else "pending", Label(tx.txType),
             tx.txType, None, tx.group, Clean(tx.rekeyTo), transfer,
             |tx.inner|, internal)
  }

  /** `map_transaction` */
  function MapTransaction(tx: RawTx): MappedTx
    decreases tx, 1
  {
    MapNode(tx, MapAll(tx.inner))
  }

  function MapAll(txs: seq<RawTx>): (ms: seq<MappedTx>)
    ensures |ms| == |txs|
    decreases txs, 0
  {
    if txs == [] then [] else [MapTransaction(txs[0])] + MapAll(txs[1..])
  }

  /******* Tree shape *******/

  function RawNodes(tx: RawTx): seq<RawTx>
    decreases tx, 1
  {
    [tx] + RawForest(tx.inner)
  }

  /** All transactions of a forest in preorder: each followed by those it contains. */
  function RawForest(txs: seq<RawTx>): seq<RawTx>
    decreases txs, 0
  {
    if txs == [] then [] else RawNodes(txs[0]) + RawForest(txs[1..])
  }

  function MappedNodes(m: MappedTx): seq<MappedTx>
    decreases m, 1
  {
    [m] + MappedForest(m.internal)
  }

  function MappedForest(ms: seq<MappedTx>): seq<MappedTx>
    decreases ms, 0
  {
    if ms == [] then [] else MappedNodes(ms[0]) + MappedForest(ms[1..])
  }

  lemma {:induction false} MapAllAppend(xs: seq<RawTx>, ys: seq<RawTx>)
    ensures MapAll(xs + ys) == MapAll(xs) + MapAll(ys)
  {
    if xs == [] {
      assert xs + ys == ys;
    } else {
      assert (xs + ys)[1..] == xs[1..] + ys;
      MapAllAppend(xs[1..], ys);
    }
  }

  lemma {:induction false} MapAllAt(txs: seq<RawTx>, i: nat)
    requires i < |txs|
    ensures MapAll(txs)[i] == MapTransaction(txs[i])
  {
    if i > 0 {
      MapAllAt(txs[1..], i - 1);
    }
  }

  /** The preorder of the mapped tree is the image of the preorder of the raw tree, node by node. */
  lemma {:induction false} PreorderIsMapped(tx: RawTx)
    ensures MappedNodes(MapTransaction(tx)) == MapAll(RawNodes(tx))
    decreases tx, 1
  {
    hide MapNode;
    PreorderIsMappedAll(tx.inner);
    assert RawNodes(tx)[1..] == RawForest(tx.inner);
    MapNodeInternal(tx, MapAll(tx.inner));
  }

  lemma MapNodeInternal(tx: RawTx, internal: seq<MappedTx>)
    ensures MapNode(tx, internal).internal == internal
    ensures MapNode(tx, internal).internalCount == |tx.inner|
  {}

  /** The same for a forest, such as the transactions of a block. */
  lemma {:induction false} PreorderIsMappedAll(txs: seq<RawTx>)
    ensures MappedForest(MapAll(txs)) == MapAll(RawForest(txs))
    decreases txs, 0
  {
    if txs != [] {
      PreorderIsMapped(txs[0]);
      PreorderIsMappedAll(txs[1..]);
      assert MapAll(txs)[1..] == MapAll(txs[1..]);
      MapAllAppend(RawNodes(txs[0]), RawForest(txs[1..]));
    }
  }

  /******* Totals over a tree *******/

  function Total<T>(xs: seq<T>, f: T -> int): int {
    if xs == [] then 0 else f(xs[0]) + Total(xs[1..], f)
  }

  lemma {:induction false} TotalAppend<T>(xs: seq<T>, ys: seq<T>, f: T -> int)
    ensures Total(xs + ys, f) == Total(xs, f) + Total(ys, f)
  {
    if xs == [] {
      assert xs + ys == ys;
    } else {
      assert (xs + ys)[1..] == xs[1..] + ys;
      TotalAppend(xs[1..], ys, f);
    }
  }

  lemma {:induction false} TotalSum<T>(xs: seq<T>, f: T -> int, g: T -> int, h: T -> int)
    requires forall x :: x in xs ==> f(x) + g(x) == h(x)
    ensures Total(xs, f) + Total(xs, g) == Total(xs, h)
  {
    if xs != [] {
      TotalSum(xs[1..], f, g, h);
    }
  }

  /** A quantity that the mapper preserves at every transaction has the same total over the mapped forest. */
  lemma {:induction false} TotalMapped(txs: seq<RawTx>, f: RawTx -> int, g: MappedTx -> int)
    requires forall tx :: tx in txs ==> g(MapTransaction(tx)) == f(tx)
    ensures Total(MapAll(txs), g) == Total(txs, f)
  {
    hide MapNode;
    if txs != [] {
      assert txs[0] in txs;
      TotalMapped(txs[1..], f, g);
      assert MapAll(txs)[1..] == MapAll(txs[1..]);
    }
  }

  /** Each tree has one node more than inner transactions counted at its nodes. */
  lemma {:induction false} RawInnerCount(tx: RawTx)
    ensures Total(RawNodes(tx), (t: RawTx) => |t.inner|) + 1 == |RawNodes(tx)|
    decreases tx, 1
  {
    RawInnerCountAll(tx.inner);
    assert RawNodes(tx)[1..] == RawForest(tx.inner);
  }

  lemma {:induction false} RawInnerCountAll(txs: seq<RawTx>)
    ensures Total(RawForest(txs), (t: RawTx) => |t.inner|) + |txs| == |RawForest(txs)|
    decreases txs, 0
  {
    if txs != [] {
      RawInnerCount(txs[0]);
      RawInnerCountAll(txs[1..]);
      TotalAppend(RawNodes(txs[0]), RawForest(txs[1..]), (t: RawTx) => |t.inner|);
    }
  }

  /** The `internal_transactions_count` fields of a mapped tree add up to its number of nodes less one. */
  lemma InternalCountsAddUp(tx: RawTx)
    ensures Total(MappedNodes(MapTransaction(tx)), (m: MappedTx) => m.internalCount) + 1
         == |MappedNodes(MapTransaction(tx))| == |RawNodes(tx)|
  {
    hide MapNode, MapTransaction;
    PreorderIsMapped(tx);
    RawInnerCount(tx);
    forall t | t in RawNodes(tx) ensures MapTransaction(t).internalCount == |t.inner| {
      MapCount(t);
    }
    TotalMapped(RawNodes(tx), (t: RawTx) => |t.inner|, (m: MappedTx) => m.internalCount);
  }

  lemma MapCount(tx: RawTx)
    ensures MapTransaction(tx).internalCount == |tx.inner| == |MapTransaction(tx).internal|
  {}

  /******* One transaction, field by field *******/

  /** A transaction of a type whose sub-object under the type's key is `d`; without one, `d` has nothing. */
  ghost predicate Carries(tx: RawTx, txType: string, key: string, d: Detail) {
    && tx.txType == Some(txType)
    && d == if key in tx.details then tx.details[key] else Detail(None, None, None, None, None, None, None, None, None)
  }

  /** An optional address is shown unless it is absent or the zero address. */
  ghost predicate ShowsAddress(shown: Option<string>, address: Option<string>) {
    shown == if address == Some("AAAAAAAAAAAAAAAAAAAAAAAAAAAAAAAAAAAAAAAAAAAAAAAAAAAAY5HFKQ") then None else address
  }

  /** A name is shown unless it is absent or empty. */
  ghost predicate ShowsName(shown: Option<string>, name: Option<string>) {
    shown == if name == Some("") then None else name
  }

  /** An id is shown as a numeral unless it is absent or zero. */
  ghost predicate ShowsId(shown: Option<string>, id: Option<nat>) {
    && (shown.Some? <==> id.Some? && id.value > 0)
    && (shown.Some? ==> IsNumeral(shown.value) && NatOf(shown.value) == id.value)
  }

  /** A numeral of an amount that counts as zero when absent. */
  ghost predicate ShowsAmount(shown: string, amount: Option<nat>) {
    IsNumeral(shown) && NatOf(shown) == if amount.Some? then amount.value else 0
  }

  /** A decimal string of microAlgos. */
  ghost predicate ShowsAlgos(shown: string, micro: nat) {
    Read(shown).Some? && Read(shown).value.Value() == Ratio(micro, 1000000)
  }

  lemma AmountShown(amount: Option<nat>)
    ensures ShowsAmount(NatStr(GetOr(amount, 0)), amount)
  {
    NatOfNatStr(GetOr(amount, 0));
  }

  lemma AlgosShown(micro: nat)
    ensures ShowsAlgos(DecimalString(micro, ALGO_DECIMALS), micro)
  {
    hide Read, DecimalString;
    PrintedValueIsExact(micro, ALGO_DECIMALS);
    MicroAlgos();
  }

  lemma MicroAlgos()
    ensures Pow(10, 6) == 1000000
  {
    PowAdd(10, 3, 3);
  }

  lemma IdShown(id: Option<nat>)
    ensures ShowsId(IdOrNone(id), id)
    ensures ShowsName(NonEmpty(IdOrNone(id)), IdOrNone(id)) && NonEmpty(IdOrNone(id)) == IdOrNone(id)
  {
    if id.Some? {
      NatOfNatStr(id.value);
    }
  }

  /** The fields that do not depend on the type, or on it alone. */
  lemma CommonFields(tx: RawTx)
    ensures var m := MapTransaction(tx);
      && m.hash == tx.id && m.blockNumber == tx.confirmedRound && m.from == tx.sender
      && m.txType == tx.txType && m.group == tx.group && m.confirmations == None
      && ShowsAddress(m.rekeyTo, tx.rekeyTo)
      && ShowsAmount(m.fee, tx.fee)
      && ShowsAlgos(m.feeDecimal, if tx.fee.Some? then tx.fee.value else 0)
      && m.status == (if tx.confirmedRound.Some? && tx.confirmedRound.value > 0 then "ok" else "pending")
      && |m.internal| == m.internalCount == |tx.inner|
      && (forall i :: 0 <= i < |tx.inner| ==> m.internal[i] == MapTransaction(tx.inner[i]))
  {
    hide NatStr, DecimalString, Label, DetailOf, Movement, ExtractClose, ShowsAmount, ShowsAlgos;
    AmountShown(tx.fee);
    AlgosShown(GetOr(tx.fee, 0));
    forall i | 0 <= i < |tx.inner| ensures MapAll(tx.inner)[i] == MapTransaction(tx.inner[i]) {
      MapAllAt(tx.inner, i);
    }
  }

  /** The label of each known type; any other type is its own label. */
  lemma Labels(tx: RawTx)
    ensures MapTransaction(tx).methodLabel
      == if tx.txType == Some("pay") then Some("Payment")
         else if tx.txType == Some("axfer") then Some("Asset Transfer")
         else if tx.txType == Some("acfg") then Some("Asset Configuration")
         else if tx.txType == Some("afrz") then Some("Asset Freeze")
         else if tx.txType == Some("appl") then Some("Application Call")
         else if tx.txType == Some("keyreg") then Some("Key Registration")
         else if tx.txType == Some("stpf") then Some("State Proof")
         else if tx.txType == Some("hb") then Some("Heartbeat")
         else tx.txType
  {
    hide NatStr, DecimalString, DetailOf, Movement, ExtractClose, MapAll;
  }

  /** A closing block: what it sweeps and to whom, and the total with what is named. */
  ghost predicate ShowsClose(c: Close, target: string, named: nat, swept: nat) {
    && c.closeRemainderTo == target
    && ShowsAmount(c.closeAmount, Some(swept)) && ShowsAmount(c.valueTotal, Some(named + swept))
  }

  /** A payment: receiver, amount, and, if it closes to a real address, the sweep. */
  lemma PaymentIsMapped(tx: RawTx, d: Detail)
    requires Carries(tx, "pay", "payment-transaction", d)
    ensures var m := MapTransaction(tx);
      var named := if d.amount.Some? then d.amount.value else 0;
      var swept := if d.closeAmount.Some? then d.closeAmount.value else if tx.closingAmount.Some? then tx.closingAmount.value else 0;
      && ShowsName(m.to, d.receiver) && m.tokenTransfer == None
      && ShowsAmount(m.value, Some(named)) && m.valueDecimal.Some? && ShowsAlgos(m.valueDecimal.value, named)
      && (m.close.Some? <==>
          d.closeRemainderTo.Some? && d.closeRemainderTo.value != "" && d.closeRemainderTo.value != "AAAAAAAAAAAAAAAAAAAAAAAAAAAAAAAAAAAAAAAAAAAAAAAAAAAAY5HFKQ")
      && (m.close.None? ==> !m.closesAccount && m.valueTotal == m.value)
      && (m.close.Some? ==>
          && m.closesAccount && m.close.value.closesAccount && !m.close.value.closesAssetHolding
          && ShowsClose(m.close.value, d.closeRemainderTo.value, named, swept)
          && m.close.value.closeAmountDecimal.Some? && ShowsAlgos(m.close.value.closeAmountDecimal.value, swept)
          && m.close.value.valueTotalDecimal.Some? && ShowsAlgos(m.close.value.valueTotalDecimal.value, named + swept)
          && m.close.value.assetId == None && m.valueTotal == m.close.value.valueTotal)
  {
    hide NatStr, DecimalString, Label, MapAll, ShowsAmount, ShowsAlgos;
    var named := if d.amount.Some? then d.amount.value else 0;
    var swept := if d.closeAmount.Some? then d.closeAmount.value else if tx.closingAmount.Some? then tx.closingAmount.value else 0;
    AmountShown(Some(named));
    AmountShown(Some(swept));
    AmountShown(Some(named + swept));
    AlgosShown(named);
    AlgosShown(swept);
    AlgosShown(named + swept);
  }

  /** An asset transfer: native value zero, the transfer with its clawed-back holder, and the sweep of the holding. */
  lemma AssetTransferIsMapped(tx: RawTx, d: Detail)
    requires Carries(tx, "axfer", "asset-transfer-transaction", d)
    ensures var m := MapTransaction(tx);
      var named := if d.amount.Some? then d.amount.value else 0;
      var swept := if d.closeAmount.Some? then d.closeAmount.value else 0;
      && ShowsName(m.to, d.receiver) && ShowsAmount(m.value, Some(0)) && m.valueDecimal == None
      && m.tokenTransfer.Some?
      && (var t := m.tokenTransfer.value;
          && t.assetId == d.assetId && t.to == d.receiver && ShowsAmount(t.amount, Some(named))
          && ShowsName(t.from, d.sender) && (t.isClawback <==> d.sender.Some? && d.sender.value != "")
          && ShowsAddress(t.closeTo, d.closeTo))
      && !m.closesAccount
      && (m.close.Some? <==>
          d.closeTo.Some? && d.closeTo.value != "" && d.closeTo.value != "AAAAAAAAAAAAAAAAAAAAAAAAAAAAAAAAAAAAAAAAAAAAAAAAAAAAY5HFKQ")
      && (m.close.None? ==> m.valueTotal == m.value)
      && (m.close.Some? ==>
          && !m.close.value.closesAccount && m.close.value.closesAssetHolding
          && ShowsClose(m.close.value, d.closeTo.value, named, swept)
          && m.close.value.closeAmountDecimal == None && m.close.value.valueTotalDecimal == None
          && m.close.value.assetId == d.assetId && m.valueTotal == m.close.value.valueTotal)
  {
    hide NatStr, DecimalString, Label, MapAll, ShowsAmount;
    var named := if d.amount.Some? then d.amount.value else 0;
    var swept := if d.closeAmount.Some? then d.closeAmount.value else 0;
    AmountShown(Some(0));
    AmountShown(Some(named));
    AmountShown(Some(swept));
    AmountShown(Some(named + swept));
    assert "pay"[0] != "axfer"[0];
  }

  /** A transaction that moves nothing. */
  ghost predicate MovesNothing(m: MappedTx) {
    && ShowsAmount(m.value, Some(0)) && m.valueDecimal == None && m.tokenTransfer == None
    && m.close == None && !m.closesAccount && m.valueTotal == m.value
  }

  lemma OthersMoveNothing(tx: RawTx)
    requires tx.txType != Some("pay") && tx.txType != Some("axfer")
    ensures MovesNothing(MapTransaction(tx))
  {
    hide NatStr, DecimalString, Label, MapAll, DetailOf, ShowsAmount;
    AmountShown(Some(0));
  }

  /** Calls and configurations point to what they are about: application, asset, or frozen address. */
  lemma ApplicationCallIsMapped(tx: RawTx, d: Detail)
    requires Carries(tx, "appl", "application-transaction", d)
    ensures ShowsId(MapTransaction(tx).to, d.applicationId) && MovesNothing(MapTransaction(tx))
  {
    hide NatStr, DecimalString, Label, MapAll, ShowsAmount, IdOrNone, ShowsId;
    IdShown(d.applicationId);
    assert "appl"[1] == 'p' && "pay"[0] == 'p' && "axfer"[1] == 'x' && "acfg"[1] == 'c' && "afrz"[1] == 'f';
    OthersMoveNothing(tx);
  }

  lemma AssetConfigurationIsMapped(tx: RawTx, d: Detail)
    requires Carries(tx, "acfg", "asset-config-transaction", d)
    ensures ShowsId(MapTransaction(tx).to, d.assetId) && MovesNothing(MapTransaction(tx))
  {
    hide NatStr, DecimalString, Label, MapAll, ShowsAmount, IdOrNone, ShowsId;
    IdShown(d.assetId);
    assert "appl"[1] == 'p' && "pay"[0] == 'p' && "axfer"[1] == 'x' && "acfg"[1] == 'c' && "afrz"[1] == 'f';
    OthersMoveNothing(tx);
  }

  lemma AssetFreezeIsMapped(tx: RawTx, d: Detail)
    requires Carries(tx, "afrz", "asset-freeze-transaction", d)
    ensures ShowsName(MapTransaction(tx).to, d.address) && MovesNothing(MapTransaction(tx))
  {
    hide NatStr, DecimalString, Label, MapAll, ShowsAmount;
    assert "appl"[1] == 'p' && "pay"[0] == 'p' && "axfer"[1] == 'x' && "acfg"[1] == 'c' && "afrz"[1] == 'f';
    OthersMoveNothing(tx);
  }

  /** Every other type, known or not, points nowhere and moves nothing. */
  lemma OtherTypesAreMapped(tx: RawTx)
    requires tx.txType.None?
      || (tx.txType.value != "pay" && tx.txType.value != "axfer" && tx.txType.value != "appl"
          && tx.txType.value != "acfg" && tx.txType.value != "afrz")
    ensures MapTransaction(tx).to == None && MovesNothing(MapTransaction(tx))
  {
    hide NatStr, DecimalString, Label, MapAll, DetailOf, ShowsAmount;
    OthersMoveNothing(tx);
  }

  /******* Conservation *******/

  /** Where a closing transaction sends the rest: the zero address and the empty string are nowhere. */
  predicate Sweeps(target: Option<string>) {
    target.Some? && target.value != ZERO_ADDRESS && target.value != ""
  }

  /** MicroAlgos a payment names. */
  function Named(tx: RawTx): nat {
    if tx.txType == Some("pay") then GetOr(DetailOf(tx).amount, 0) else 0
  }

  /** MicroAlgos a payment sweeps on top: `close-amount`, or the top-level `closing-amount` in its absence. */
  function Swept(tx: RawTx): nat {
    if tx.txType == Some("pay") && Sweeps(DetailOf(tx).closeRemainderTo) then
      match DetailOf(tx).closeAmount
      case Some(c) => c
      case None => GetOr(tx.closingAmount, 0)
    else 0
  }

  predicate Closes(tx: RawTx) {
    tx.txType == Some("pay") && Sweeps(DetailOf(tx).closeRemainderTo)
  }

  /** Units of `asset` that an asset transfer names, and that it sweeps. */
  function AssetNamed(tx: RawTx, asset: Option<nat>): nat {
    if tx.txType == Some("axfer") && DetailOf(tx).assetId == asset then GetOr(DetailOf(tx).amount, 0) else 0
  }

  function AssetSwept(tx: RawTx, asset: Option<nat>): nat {
    if tx.txType == Some("axfer") && DetailOf(tx).assetId == asset && Sweeps(DetailOf(tx).closeTo) then
      GetOr(DetailOf(tx).closeAmount, 0)
    else 0
  }

  /** What a reader of the mapped transaction makes of its fields. */
  function ReadValueTotal(m: MappedTx): nat {
    if m.txType == Some("pay") then NatOf(m.valueTotal) else 0
  }

  function ReadAssetTotal(m: MappedTx, asset: Option<nat>): nat {
    if m.txType == Some("axfer") && m.tokenTransfer.Some? && m.tokenTransfer.value.assetId == asset then
      if m.close.Some? then NatOf(m.close.value.valueTotal) else NatOf(m.tokenTransfer.value.amount)
    else 0
  }

  /** One payment: the fields read back as the named amount, the swept amount and their sum. */
  lemma PaymentFields(tx: RawTx)
    ensures var m := MapTransaction(tx);
      && ReadValueTotal(m) == Named(tx) + Swept(tx)
      && NatOf(m.value) == Named(tx)
      && (m.closesAccount <==> Closes(tx))
      && (tx.txType == Some("pay") ==> NatOf(m.valueTotal) - NatOf(m.value) == Swept(tx))
      && (m.closesAccount ==> m.close.Some? && NatOf(m.close.value.closeAmount) == Swept(tx))
      && (m.closesAccount ==> DetailOf(tx).closeRemainderTo == Some(m.close.value.closeRemainderTo))
  {
    hide NatStr, NatOf, DecimalString, Label, DetailOf, MapAll;
    var d := DetailOf(tx);
    NatOfNatStr(0);
    NatOfNatStr(GetOr(d.amount, 0));
    NatOfNatStr(Swept(tx));
    NatOfNatStr(Named(tx) + Swept(tx));
    assert "pay"[0] != "axfer"[0];
  }

  /** One asset transfer, likewise; it never closes the account. */
  lemma AssetTransferFields(tx: RawTx, asset: Option<nat>)
    ensures var m := MapTransaction(tx);
      && ReadAssetTotal(m, asset) == AssetNamed(tx, asset) + AssetSwept(tx, asset)
      && (tx.txType == Some("axfer") ==> !m.closesAccount)
  {
    hide NatStr, NatOf, DecimalString, Label, DetailOf, MapAll;
    var d := DetailOf(tx);
    NatOfNatStr(GetOr(d.amount, 0));
    NatOfNatStr(AssetNamed(tx, asset) + AssetSwept(tx, asset));
    assert "pay"[0] != "axfer"[0];
  }

  /**
   Conservation over a forest of any depth: the microAlgo totals read from the mapped payments are the
   amounts the raw payments name plus the remainders they sweep.
   */
  lemma PaymentsConserved(txs: seq<RawTx>)
    ensures Total(MappedForest(MapAll(txs)), m => ReadValueTotal(m))
         == Total(RawForest(txs), tx => Named(tx)) + Total(RawForest(txs), tx => Swept(tx))
  {
    hide MapTransaction, Named, Swept, ReadValueTotal;
    PreorderIsMappedAll(txs);
    forall tx | tx in RawForest(txs) ensures ReadValueTotal(MapTransaction(tx)) == Named(tx) + Swept(tx) {
      PaymentFields(tx);
    }
    var moved := (tx: RawTx) => Named(tx) + Swept(tx);
    TotalMapped(RawForest(txs), moved, m => ReadValueTotal(m));
    TotalSum(RawForest(txs), tx => Named(tx), tx => Swept(tx), moved);
  }

  /** The same for the units of each asset. */
  lemma AssetsConserved(txs: seq<RawTx>, asset: Option<nat>)
    ensures Total(MappedForest(MapAll(txs)), m => ReadAssetTotal(m, asset))
         == Total(RawForest(txs), tx => AssetNamed(tx, asset)) + Total(RawForest(txs), tx => AssetSwept(tx, asset))
  {
    hide MapTransaction, AssetNamed, AssetSwept, ReadAssetTotal;
    PreorderIsMappedAll(txs);
    forall tx | tx in RawForest(txs)
      ensures ReadAssetTotal(MapTransaction(tx), asset) == AssetNamed(tx, asset) + AssetSwept(tx, asset)
    {
      AssetTransferFields(tx, asset);
    }
    var moved := (tx: RawTx) => AssetNamed(tx, asset) + AssetSwept(tx, asset);
    TotalMapped(RawForest(txs), moved, m => ReadAssetTotal(m, asset));
    TotalSum(RawForest(txs), tx => AssetNamed(tx, asset), tx => AssetSwept(tx, asset), moved);
  }

  /** The decimal strings of a closing payment add up exactly, with no rounding. */
  lemma ClosingDecimalsAddUp(tx: RawTx)
    requires Closes(tx)
    ensures var m := MapTransaction(tx);
      && m.valueDecimal.Some? && m.close.Some?
      && m.close.value.closeAmountDecimal.Some? && m.close.value.valueTotalDecimal.Some?
      && var x, y, z := Read(m.valueDecimal.value), Read(m.close.value.closeAmountDecimal.value), Read(m.close.value.valueTotalDecimal.value);
        x.Some? && y.Some? && z.Some? && x.value.Value() + y.value.Value() == z.value.Value()
  {
    hide NatStr, Read, DecimalString, Label, DetailOf, MapAll;
    PrintedSum(Named(tx), Swept(tx), ALGO_DECIMALS);
  }

  /******* Confirmations *******/

  function Depth(tip: nat, block: nat): nat {
    if tip < block then 0 else tip - block
  }

  function Confirmed(tx: RawTx, tip: Option<nat>): MappedTx {
    var m := MapTransaction(tx);
    if tip.Some? && m.blockNumber.Some? then m.(confirmations := Some(Depth(tip.value, m.blockNumber.value))) else m
  }

  /** `map_transaction_list` */
  method MapTransactionList(txs: seq<RawTx>, nextToken: Option<string>, chainTip: Option<nat>) returns (page: Page<MappedTx>)
    ensures |page.items| == |txs|
    ensures forall i :: 0 <= i < |txs| ==> page.items[i] == Confirmed(txs[i], chainTip)
    ensures page.nextToken.Some? <==> nextToken.Some? && nextToken.value != ""
    ensures page.nextToken.Some? ==> page.nextToken == nextToken
  {
    hide MapTransaction;
    var items: seq<MappedTx> := [];
    for i := 0 to |txs|
      invariant |items| == i
      invariant forall k :: 0 <= k < i ==> items[k] == Confirmed(txs[k], chainTip)
    {
      var mapped := MapTransaction(txs[i]);
      if chainTip.Some? && mapped.blockNumber.Some? {
        var depth := chainTip.value - mapped.blockNumber.value;
        mapped := mapped.(confirmations := Some(if depth < 0 then 0 else depth));
      }
      items := items + [mapped];
    }
    page := Page(items, NonEmpty(nextToken));
  }

  /** Round zero, as the tip or as the confirming round, counts as absent for a single transaction only. */
  predicate Skipped(tx: RawTx, currentRound: Option<nat>) {
    currentRound == Some(0) || tx.confirmedRound == Some(0)
  }

  function Single(tx: RawTx, currentRound: Option<nat>): MappedTx {
    if Skipped(tx, currentRound) then MapTransaction(tx) else Confirmed(tx, currentRound)
  }

  /** `get_transaction` after the payload was fetched or found in the cache; None is its 404. */
  method GetTransaction(tx: Option<RawTx>, currentRound: Option<nat>) returns (mapped: Option<MappedTx>)
    ensures mapped == if tx.None? then None else Some(Single(tx.value, currentRound))
  {
    hide MapTransaction;
    if tx.None? {
      return None;
    }
    var m := MapTransaction(tx.value);
    if GetOr(currentRound, 0) != 0 && GetOr(m.blockNumber, 0) != 0 {
      var depth := currentRound.value - m.blockNumber.value;
      m := m.(confirmations := Some(if depth < 0 then 0 else depth));
    }
    MapBlockNumber(tx.value);
    return Some(m);
  }

  lemma MapBlockNumber(tx: RawTx)
    ensures MapTransaction(tx).blockNumber == tx.confirmedRound && MapTransaction(tx).confirmations == None
  {}

  /** Confirmations on a page: the rounds since, none below zero, whenever both rounds are known; all else as mapped. */
  lemma PageConfirmations(tx: RawTx, tip: Option<nat>)
    ensures var m := Confirmed(tx, tip);
      && m == MapTransaction(tx).(confirmations := m.confirmations)
      && (m.confirmations.Some? <==> tip.Some? && tx.confirmedRound.Some?)
      && (m.confirmations.Some? && tip.value >= tx.confirmedRound.value ==>
          m.confirmations.value + tx.confirmedRound.value == tip.value)
      && (m.confirmations.Some? && tip.value < tx.confirmedRound.value ==> m.confirmations.value == 0)
  {
    hide MapTransaction;
    MapBlockNumber(tx);
  }

  /** On the single route likewise, whenever both rounds are known and positive. */
  lemma SingleConfirmations(tx: RawTx, tip: Option<nat>)
    ensures var m := Single(tx, tip);
      && m == MapTransaction(tx).(confirmations := m.confirmations)
      && (m.confirmations.Some? <==>
          tip.Some? && tip.value > 0 && tx.confirmedRound.Some? && tx.confirmedRound.value > 0)
      && (m.confirmations.Some? && tip.value >= tx.confirmedRound.value ==>
          m.confirmations.value + tx.confirmedRound.value == tip.value)
      && (m.confirmations.Some? && tip.value < tx.confirmedRound.value ==> m.confirmations.value == 0)
  {
    hide MapTransaction;
    MapBlockNumber(tx);
  }

  /**
   The transaction page and the single-transaction route agree on a transaction except exactly when
   both rounds are known and one of them is zero: then only the page reports confirmations.
   */
  lemma RoutesAgreeIff(tx: RawTx, tip: Option<nat>)
    ensures Single(tx, tip) == Confirmed(tx, tip)
      <==> !(tip.Some? && tx.confirmedRound.Some? && (tip.value == 0 || tx.confirmedRound.value == 0))
  {
    hide MapTransaction;
    MapBlockNumber(tx);
  }
}
