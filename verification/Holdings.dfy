/**
 The holdings page: the merge of the gathered lookups into a map, and `map_account_assets`, joined
 with the fan-out that produced the lookups.
 */
module Holdings {
  import opened Wrappers
  import opened Positional
  import opened Amounts
  import opened Retry
  import opened FanOut

  datatype Holding = Holding(assetId: Option<AssetId>, amount: Option<nat>, isFrozen: Option<bool>,
                             optedInAtRound: Option<nat>, deleted: Option<bool>)

  datatype TokenStub = TokenStub(address: Option<string>, assetId: Option<AssetId>, name: Option<string>,
                                 symbol: Option<string>, decimals: Option<int>, totalSupply: Option<string>,
                                 kind: string, iconUrl: Option<string>)

  datatype Item = Item(token: TokenStub, value: string, valueDecimal: Option<string>, isFrozen: bool,
                       optedInAtRound: Option<nat>, deleted: bool)

  function StrOrNone(n: Option<int>): Option<string> {
    if n.Some? then Some(IntStr(n.value)) else None
  }

  /** `classify_asset` */
  function ClassifyAsset(meta: Params): string {
    if meta.decimals != Some(0) || meta.total.None? then "ASA"
    else if meta.total.value == 1 then "ASA-NFT"
    else if 1 < meta.total.value <= 10_000 then "ASA-NFT-EDITION"
    else "ASA"
  }

  /** `_token_stub` */
  function Token(id: Option<AssetId>, meta: Params): TokenStub {
    TokenStub(StrOrNone(id), id, meta.name, meta.unitName, meta.decimals, StrOrNone(meta.total), ClassifyAsset(meta), None)
  }

  /** The distinct ids that the page looks up. */
  function AssetIds(assets: seq<Holding>): (ids: set<AssetId>)
    ensures forall id :: id in ids <==> exists i :: 0 <= i < |assets| && assets[i].assetId == Some(id)
  {
    set i | 0 <= i < |assets| && assets[i].assetId.Some? :: assets[i].assetId.value
  }

  /** One holding, given the metadata found for it (if any). */
  function MapHolding(holding: Holding, found: Option<Params>): Item {
    var meta := GetOr(found, NO_PARAMS);
    var amount := GetOr(holding.amount, 0);
    Item(
      Token(holding.assetId, meta),
      IntStr(amount),
      if meta.decimals.Some? then Some(DecimalString(amount, meta.decimals.value)) else None,
      GetOr(holding.isFrozen, false),
      holding.optedInAtRound,
      GetOr(holding.deleted, false))
  }

  function Lookup(params: map<AssetId, Params>, id: Option<AssetId>): Option<Params> {
    if id.Some? && id.value in params then Some(params[id.value]) else None
  }

  /** What a holding's metadata is when its asset is looked up alone, with no fan-out around it. */
  function LookedUpAlone(up: Upstream, holding: Holding, resolve: bool): Option<Params> {
    if resolve && holding.assetId.Some? then Resolved(up, holding.assetId.value) else None
  }

  /** The loop over `asyncio.gather`'s results. */
  method MergeResolved(gathered: seq<(AssetId, Option<Params>)>) returns (params: map<AssetId, Params>)
    requires forall i, j :: 0 <= i < j < |gathered| ==> gathered[i].0 != gathered[j].0
    ensures forall id, p :: (id in params && params[id] == p) <==> (id, Some(p)) in gathered
  {
    params := map[];
    for i := 0 to |gathered|
      invariant forall id, p :: (id in params && params[id] == p) <==> (id, Some(p)) in gathered[..i]
    {
      var (id, resolved) := gathered[i];
      assert gathered[..i + 1] == gathered[..i] + [gathered[i]];
      if resolved.Some? {
        params := params[id := resolved.value];
      }
    }
  }

  /** `map_account_assets` */
  method MapAccountAssets(assets: seq<Holding>, nextToken: Option<string>, params: map<AssetId, Params>)
    returns (page: Page<Item>)
    ensures |page.items| == |assets|
    ensures forall i :: 0 <= i < |assets| ==> page.items[i] == MapHolding(assets[i], Lookup(params, assets[i].assetId))
    ensures page.nextToken.Some? <==> nextToken.Some? && nextToken.value != ""
    ensures page.nextToken.Some? ==> page.nextToken == nextToken
  {
    var items: seq<Item> := [];
    for i := 0 to |assets|
      invariant |items| == i
      invariant forall k :: 0 <= k < i ==> items[k] == MapHolding(assets[k], Lookup(params, assets[k].assetId))
    {
      items := items + [MapHolding(assets[i], Lookup(params, assets[i].assetId))];
    }
    page := Page(items, NonEmpty(nextToken));
  }

  /** The lookup of the holding's asset, settled by an attempt that brought a body declaring `p`. */
  ghost predicate Declared(up: Upstream, holding: Holding, resolve: bool, p: Params) {
    && resolve && holding.assetId.Some?
    && var script := up(holding.assetId.value);
      var o := script(Deciding(script));
      o.Response? && o.status < 400 && o.body == Payload(Some(AssetObject(Some(p))))
  }

  /** What an item shows of its asset, from the parameters that the upstream declares for it. */
  ghost predicate ShowsParams(item: Item, amount: nat, p: Params) {
    && item.token.name == p.name && item.token.symbol == p.unitName && item.token.decimals == p.decimals
    && (item.token.totalSupply.Some? <==> p.total.Some?)
    && (p.total.Some? ==> IntOf(item.token.totalSupply.value) == p.total.value)
    && (item.token.kind == "ASA-NFT" <==> p.decimals == Some(0) && p.total == Some(1))
    && (item.token.kind == "ASA-NFT-EDITION" <==> p.decimals == Some(0) && p.total.Some? && 2 <= p.total.value <= 10_000)
    && (item.token.kind in {"ASA", "ASA-NFT", "ASA-NFT-EDITION"})
    && (item.valueDecimal.Some? <==> p.decimals.Some?)
    && (p.decimals.Some? ==>
        var d := Read(item.valueDecimal.value);
        d.Some? && d.value.Value() == Ratio(amount, Pow(10, if p.decimals.value <= 0 then 0 else p.decimals.value)))
  }

  /** What an item shows of a holding: its own fields, and the declared parameters or, without any, none. */
  ghost predicate Shows(up: Upstream, holding: Holding, resolve: bool, item: Item) {
    var amount := if holding.amount.Some? then holding.amount.value else 0;
    && item.token.assetId == holding.assetId
    && (item.token.address.Some? <==> holding.assetId.Some?)
    && (holding.assetId.Some? ==> IntOf(item.token.address.value) == holding.assetId.value)
    && item.token.iconUrl == None
    && IntOf(item.value) == amount
    && (item.isFrozen <==> holding.isFrozen == Some(true))
    && item.optedInAtRound == holding.optedInAtRound
    && (item.deleted <==> holding.deleted == Some(true))
    && (forall p :: Declared(up, holding, resolve, p) ==> ShowsParams(item, amount, p))
    && ((forall p :: !Declared(up, holding, resolve, p)) ==> ShowsParams(item, amount, Params(None, None, None, None)))
  }

  lemma KindIsExact(p: Params)
    ensures var kind := ClassifyAsset(p);
      && (kind == "ASA-NFT" <==> p.decimals == Some(0) && p.total == Some(1))
      && (kind == "ASA-NFT-EDITION" <==> p.decimals == Some(0) && p.total.Some? && 2 <= p.total.value <= 10_000)
      && kind in {"ASA", "ASA-NFT", "ASA-NFT-EDITION"}
  {
    assert |"ASA"| == 3 && |"ASA-NFT"| == 7 && |"ASA-NFT-EDITION"| == 15;
  }

  lemma MappedShowsParams(holding: Holding, found: Option<Params>)
    ensures ShowsParams(MapHolding(holding, found), if holding.amount.Some? then holding.amount.value else 0,
                        if found.Some? then found.value else Params(None, None, None, None))
  {
    hide DecimalString, IntStr, IntOf, Read, Pow, Ratio, ClassifyAsset;
    var p := if found.Some? then found.value else NO_PARAMS;
    KindIsExact(p);
    if p.total.Some? {
      IntOfIntStr(p.total.value);
    }
    if p.decimals.Some? {
      PrintedValueIsExact(if holding.amount.Some? then holding.amount.value else 0, p.decimals.value);
    }
  }

  /** Every field of a mapped item is the holding's or the upstream's own, and no lookup means no parameters. */
  lemma MappedShows(up: Upstream, holding: Holding, resolve: bool)
    ensures Shows(up, holding, resolve, MapHolding(holding, LookedUpAlone(up, holding, resolve)))
  {
    hide IntStr, IntOf, ShowsParams, Token, DecimalString, Deciding;
    var found := LookedUpAlone(up, holding, resolve);
    MappedShowsParams(holding, found);
    MappedOwnFields(holding, found);
    if found.Some? {
      var script := up(holding.assetId.value);
      AnswerIsExact(script);
      var body := script(Deciding(script)).body;
      if body.asset.Some? && body.asset.value.params.Some? {
        assert Declared(up, holding, resolve, found.value);
      }
    }
  }

  lemma MappedOwnFields(holding: Holding, found: Option<Params>)
    ensures var item := MapHolding(holding, found);
      && item.token.assetId == holding.assetId
      && (item.token.address.Some? <==> holding.assetId.Some?)
      && (holding.assetId.Some? ==> IntOf(item.token.address.value) == holding.assetId.value)
      && item.token.iconUrl == None
      && IntOf(item.value) == (if holding.amount.Some? then holding.amount.value else 0)
      && (item.isFrozen <==> holding.isFrozen == Some(true))
      && item.optedInAtRound == holding.optedInAtRound
      && (item.deleted <==> holding.deleted == Some(true))
  {
    hide IntStr, IntOf, DecimalString, ClassifyAsset;
    IntOfIntStr(if holding.amount.Some? then holding.amount.value else 0);
    if holding.assetId.Some? {
      IntOfIntStr(holding.assetId.value);
    }
  }

  /** `gathered` lists the results of all tasks of a finished fan-out, in any order. */
  ghost predicate Gathers(s: State, gathered: seq<(AssetId, Option<Params>)>) {
    && (forall i, j :: 0 <= i < j < |gathered| ==> gathered[i].0 != gathered[j].0)
    && (forall id, r :: (id, r) in gathered <==> id in s.tasks && s.tasks[id] == Done(r))
  }

  /**
   `get_address_token_balances` after the holdings were fetched. Whatever schedule the fan-out took and
   in whatever order its results are merged, each holding is mapped, in place and in order, with the
   metadata that a lookup of its asset alone would have found.
   */
  method TokenBalances(ghost up: Upstream, ghost run: seq<Action>, assets: seq<Holding>, nextToken: Option<string>,
                       resolve: bool, gathered: seq<(AssetId, Option<Params>)>)
    returns (page: Page<Item>)
    requires resolve ==> Legal(up, AssetIds(assets), run)
    requires resolve ==> Finished(After(up, AssetIds(assets), run)) && Gathers(After(up, AssetIds(assets), run), gathered)
    ensures |page.items| == |assets|
    ensures forall i :: 0 <= i < |assets| ==> page.items[i] == MapHolding(assets[i], LookedUpAlone(up, assets[i], resolve))
    ensures forall i :: 0 <= i < |assets| ==> Shows(up, assets[i], resolve, page.items[i])
    ensures page.nextToken.Some? <==> nextToken.Some? && nextToken.value != ""
    ensures page.nextToken.Some? ==> page.nextToken == nextToken
  {
    hide Shows, MapHolding, Legal, After, Finished, Outcomes;
    var params: map<AssetId, Params> := map[];
    if resolve {
      params := MergeResolved(gathered);
      FinishedStateIsUnique(up, AssetIds(assets), run);
      forall i | 0 <= i < |assets|
        ensures Lookup(params, assets[i].assetId) == LookedUpAlone(up, assets[i], true)
      {
        hide *;
        LookupHolding(up, assets, gathered, params, i);
      }
    }
    page := MapAccountAssets(assets, nextToken, params);
    forall i | 0 <= i < |assets| ensures Shows(up, assets[i], resolve, page.items[i]) {
      MappedShows(up, assets[i], resolve);
    }
  }

  lemma LookupHolding(up: Upstream, assets: seq<Holding>, gathered: seq<(AssetId, Option<Params>)>,
                      params: map<AssetId, Params>, i: nat)
    requires i < |assets|
    requires Gathers(Outcomes(up, AssetIds(assets)), gathered)
    requires forall id, p :: (id in params && params[id] == p) <==> (id, Some(p)) in gathered
    ensures Lookup(params, assets[i].assetId) == LookedUpAlone(up, assets[i], true)
  {
    hide Resolved, Gathers, Outcomes;
    if assets[i].assetId.Some? {
      LookupGathered(up, AssetIds(assets), gathered, params, assets[i].assetId.value);
    }
  }

  lemma LookupGathered(up: Upstream, ids: set<AssetId>, gathered: seq<(AssetId, Option<Params>)>,
                       params: map<AssetId, Params>, id: AssetId)
    requires id in ids
    requires Gathers(Outcomes(up, ids), gathered)
    requires forall id, p :: (id in params && params[id] == p) <==> (id, Some(p)) in gathered
    ensures Lookup(params, Some(id)) == Resolved(up, id)
  {
    var r := Resolved(up, id);
    assert (id, r) in gathered;
    if id in params {
      assert (id, Some(params[id])) in gathered;
    }
  }

  /**
   An item's value is the exact amount; it has a decimal rendering exactly when the lookup succeeded
   and the asset declares decimals, and that rendering denotes the exact amount.
   */
  lemma ItemIsExact(up: Upstream, holding: Holding, resolve: bool)
    ensures var found := LookedUpAlone(up, holding, resolve);
      var item := MapHolding(holding, found);
      && IntOf(item.value) == GetOr(holding.amount, 0)
      && (item.valueDecimal.Some? <==>
          resolve && holding.assetId.Some? && Answer(up(holding.assetId.value)).Success?
          && ParamsOf(Answer(up(holding.assetId.value)).value).decimals.Some?)
      && (item.valueDecimal.Some? ==>
          var d := Read(item.valueDecimal.value);
          d.Some? && d.value.Value() == Ratio(GetOr(holding.amount, 0), Pow(10, Scale(found.value.decimals.value))))
  {
    hide DecimalString, IntStr, Read, Pow, Deciding;
    var found := LookedUpAlone(up, holding, resolve);
    IntOfIntStr(GetOr(holding.amount, 0));
    if found.Some? && found.value.decimals.Some? {
      PrintedValueIsExact(GetOr(holding.amount, 0), found.value.decimals.value);
    }
  }
}
