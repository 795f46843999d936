/**
 trades.go and the trade effects of effects.go: one claim list, read as trade rows and as
 effect records that mirror them.
 */
module Trades {
  import opened Wrappers
  import opened Effects

  /** An ed25519 public key or a pool id, as raw bytes. */
  type Key = string

  /** Renderings done elsewhere: strkey account ids, hex, amounts with seven decimals. */
  datatype Codec = Codec(address: Key -> string, hex: Key -> string, amount: int -> string)
  {
    /** A strkey account id starts with G; lower-case hex has no G. */
    ghost predicate Valid() {
      && (forall k :: address(k) != "" && address(k)[0] == 'G')
      && forall k :: 'G' !in hex(k)
    }
  }

  /** A claim atom; Other stands for an arm the code does not know. */
  datatype Claim =
    | OrderBook(seller: Key, offerId: int, sold: Asset, amountSold: int, bought: Asset, amountBought: int)
    | V0(seller: Key, offerId: int, sold: Asset, amountSold: int, bought: Asset, amountBought: int)
    | LiquidityPool(poolId: Key, sold: Asset, amountSold: int, bought: Asset, amountBought: int)
    | Other(amountSold: int, amountBought: int)

  predicate Zero(c: Claim) {
    c.amountSold == 0 && c.amountBought == 0
  }

  datatype Context = Context(transactionHash: string, operationIndex: nat, buyer: string)

  datatype TradeType = Orderbook | Pool

  datatype TradeRow = TradeRow(
    transactionHash: string,
    operationIndex: nat,
    tradeIndex: nat,
    tradeType: TradeType,
    sellerAccount: string,
    sellingCode: Option<string>,
    sellingIssuer: Option<string>,
    sellingAmount: string,
    buyerAccount: string,
    buyingCode: Option<string>,
    buyingIssuer: Option<string>,
    buyingAmount: string,
    price: string,
    liquidityPoolId: Option<string>)

  /** assetCodeIssuer. */
  function AssetCodeIssuer(a: Asset): (Option<string>, Option<string>) {
    if a.Native? then (None, None) else (Some(a.code), Some(a.issuer))
  }

  /** The asset's form in SEP-0011. */
  function Canonical(a: Asset): string {
    if a.Native? then "native" else a.code + ":" + a.issuer
  }

  function SellerOf(codec: Codec, c: Claim): string {
    match c
    case OrderBook(seller, _, _, _, _, _) => codec.address(seller)
    case V0(seller, _, _, _, _, _) => codec.hex(seller)
    case _ => ""
  }

  function RowOf(codec: Codec, ctx: Context, c: Claim, index: nat): TradeRow
    requires !c.Other?
  {
    var selling, buying := codec.amount(c.amountSold), codec.amount(c.amountBought);
    TradeRow(ctx.transactionHash, ctx.operationIndex, index, if c.LiquidityPool? then Pool else Orderbook,
             SellerOf(codec, c), AssetCodeIssuer(c.sold).0, AssetCodeIssuer(c.sold).1, selling,
             ctx.buyer, AssetCodeIssuer(c.bought).0, AssetCodeIssuer(c.bought).1, buying,
             buying + "/" + selling, if c.LiquidityPool? then Some(codec.hex(c.poolId)) else None)
  }

  /** The rows of the claims some version of the extractor emits; tradeIndex is the claim's position. */
  ghost function RowsEmitting(emits: Claim -> bool, codec: Codec, ctx: Context, claims: seq<Claim>): seq<TradeRow>
    requires forall c | emits(c) :: !c.Other?
  {
    if claims == [] then [] else
      var c := claims[|claims| - 1];
      RowsEmitting(emits, codec, ctx, claims[..|claims| - 1]) +
      if !Zero(c) && emits(c) then [RowOf(codec, ctx, c, |claims| - 1)] else []
  }

  const KNOWN: Claim -> bool := (c: Claim) => !c.Other?

  ghost function Rows(codec: Codec, ctx: Context, claims: seq<Claim>): seq<TradeRow> {
    RowsEmitting(KNOWN, codec, ctx, claims)
  }

  /** tradeFromClaim. */
  method TradeFromClaim(codec: Codec, claim: Claim, ctx: Context, index: nat) returns (row: Option<TradeRow>)
    ensures row == if claim.Other? then None else Some(RowOf(codec, ctx, claim, index))
  {
    var seller, sellingAmount, buyingAmount := "", "", "";
    var selling, buying := Native, Native;
    var tradeType: TradeType, poolId: Option<string> := Orderbook, None;
    match claim {
      case OrderBook(s, _, sold, amountSold, bought, amountBought) =>
        seller := codec.address(s);
        sellingAmount, buyingAmount := codec.amount(amountSold), codec.amount(amountBought);
        selling, buying := sold, bought;
      case V0(s, _, sold, amountSold, bought, amountBought) =>
        seller := codec.hex(s);
        sellingAmount, buyingAmount := codec.amount(amountSold), codec.amount(amountBought);
        selling, buying := sold, bought;
      case LiquidityPool(id, sold, amountSold, bought, amountBought) =>
        poolId, tradeType := Some(codec.hex(id)), Pool;
        sellingAmount, buyingAmount := codec.amount(amountSold), codec.amount(amountBought);
        selling, buying := sold, bought;
      case Other(_, _) =>
        return None;
    }
    var (sellingCode, sellingIssuer) := AssetCodeIssuer(selling);
    var (buyingCode, buyingIssuer) := AssetCodeIssuer(buying);
    return Some(TradeRow(ctx.transactionHash, ctx.operationIndex, index, tradeType, seller,
                         sellingCode, sellingIssuer, sellingAmount, ctx.buyer,
                         buyingCode, buyingIssuer, buyingAmount, buyingAmount + "/" + sellingAmount, poolId));
  }

  /** appendTradesFromClaims. */
  method AppendTradesFromClaims(codec: Codec, trades: seq<TradeRow>, claims: seq<Claim>, ctx: Context)
    returns (out: seq<TradeRow>)
    ensures out == trades + Rows(codec, ctx, claims)
  {
    hide RowOf;
    out := trades;
    for tradeIndex := 0 to |claims|
      invariant out == trades + Rows(codec, ctx, claims[..tradeIndex])
    {
      var claim := claims[tradeIndex];
      assert claims[..tradeIndex + 1][..tradeIndex] == claims[..tradeIndex];
      if claim.amountSold == 0 && claim.amountBought == 0 {
        continue;
      }
      var trade := TradeFromClaim(codec, claim, ctx, tradeIndex);
      if trade.None? {
        continue;
      }
      out := out + [trade.value];
    }
    assert claims[..|claims|] == claims;
  }

  ghost predicate IndexAscending(rows: seq<TradeRow>) {
    forall a, b | 0 <= a < b < |rows| :: rows[a].tradeIndex < rows[b].tradeIndex
  }

  /** A row is that of the emitted claim at its index. */
  ghost predicate FromClaim(emits: Claim -> bool, codec: Codec, ctx: Context, claims: seq<Claim>, row: TradeRow) {
    row.tradeIndex < |claims| &&
    var c := claims[row.tradeIndex];
    !Zero(c) && emits(c) && !c.Other? && row == RowOf(codec, ctx, c, row.tradeIndex)
  }

  lemma FromClaimGrows(emits: Claim -> bool, codec: Codec, ctx: Context, front: seq<Claim>, c: Claim, row: TradeRow)
    requires FromClaim(emits, codec, ctx, front, row)
    ensures FromClaim(emits, codec, ctx, front + [c], row)
  {
  }

  lemma RowsEmittingLast(emits: Claim -> bool, codec: Codec, ctx: Context, front: seq<Claim>, c: Claim)
    requires forall c | emits(c) :: !c.Other?
    ensures RowsEmitting(emits, codec, ctx, front + [c]) == RowsEmitting(emits, codec, ctx, front) +
              if !Zero(c) && emits(c) then [RowOf(codec, ctx, c, |front|)] else []
    ensures !Zero(c) && emits(c) ==> FromClaim(emits, codec, ctx, front + [c], RowOf(codec, ctx, c, |front|))
  {
    assert (front + [c])[..|front|] == front;
  }

  lemma {:induction false} RowsComeFromClaims(emits: Claim -> bool, codec: Codec, ctx: Context, claims: seq<Claim>)
    requires forall c | emits(c) :: !c.Other?
    ensures IndexAscending(RowsEmitting(emits, codec, ctx, claims))
    ensures forall row | row in RowsEmitting(emits, codec, ctx, claims) :: FromClaim(emits, codec, ctx, claims, row)
  {
    if claims != [] {
      var n := |claims| - 1;
      var front, c := claims[..n], claims[n];
      assert claims == front + [c];
      RowsComeFromClaims(emits, codec, ctx, front);
      RowsEmittingLast(emits, codec, ctx, front, c);
      var before := RowsEmitting(emits, codec, ctx, front);
      forall row | row in before ensures FromClaim(emits, codec, ctx, claims, row) && row.tradeIndex < n {
        FromClaimGrows(emits, codec, ctx, front, c, row);
      }
    }
  }

  lemma {:induction false} ClaimsHaveRows(emits: Claim -> bool, codec: Codec, ctx: Context, claims: seq<Claim>, i: nat)
    requires forall c | emits(c) :: !c.Other?
    requires i < |claims| && !Zero(claims[i]) && emits(claims[i])
    ensures RowOf(codec, ctx, claims[i], i) in RowsEmitting(emits, codec, ctx, claims)
  {
    hide RowOf;
    if i < |claims| - 1 {
      ClaimsHaveRows(emits, codec, ctx, claims[..|claims| - 1], i);
    }
  }

  /**
   Rows are exactly the emitted claims' rows, each under its claim's position, in position order:
   a claim that is declined leaves a gap.
   */
  lemma RowsAreSurvivingClaims(emits: Claim -> bool, codec: Codec, ctx: Context, claims: seq<Claim>)
    requires forall c | emits(c) :: !c.Other?
    ensures IndexAscending(RowsEmitting(emits, codec, ctx, claims))
    ensures forall row :: row in RowsEmitting(emits, codec, ctx, claims) <==> FromClaim(emits, codec, ctx, claims, row)
  {
    hide RowsEmitting, RowOf;
    RowsComeFromClaims(emits, codec, ctx, claims);
    forall row | FromClaim(emits, codec, ctx, claims, row) ensures row in RowsEmitting(emits, codec, ctx, claims) {
      ClaimsHaveRows(emits, codec, ctx, claims, row.tradeIndex);
    }
  }

  /** Emitting further kinds of claim adds rows and changes none: no existing row's index moves. */
  lemma FurtherKindsKeepIndices(narrow: Claim -> bool, wide: Claim -> bool, codec: Codec, ctx: Context, claims: seq<Claim>)
    requires (forall c | narrow(c) :: wide(c)) && forall c | wide(c) :: !c.Other?
    ensures forall row :: row in RowsEmitting(narrow, codec, ctx, claims) <==>
                          row in RowsEmitting(wide, codec, ctx, claims) && row.tradeIndex < |claims| && narrow(claims[row.tradeIndex])
  {
    hide RowsEmitting, RowOf, Zero;
    RowsAreSurvivingClaims(narrow, codec, ctx, claims);
    RowsAreSurvivingClaims(wide, codec, ctx, claims);
  }

  // Trade effects.

  function OfferDetails(offerId: int, seller: string, boughtAmount: string, bought: Asset, soldAmount: string, sold: Asset): Details {
    OfferTerms(offerId, seller, boughtAmount, soldAmount) + AssetDetails(bought, "bought_") + AssetDetails(sold, "sold_")
  }

  function OfferTerms(offerId: int, seller: string, boughtAmount: string, soldAmount: string): Details {
    map["offer_id" := N(offerId), "seller" := S(seller),
        "bought_amount" := S(boughtAmount), "sold_amount" := S(soldAmount)]
  }

  function BuyerDetails(codec: Codec, c: Claim): Details
    requires c.OrderBook? || c.V0?
  {
    OfferDetails(c.offerId, codec.address(c.seller), codec.amount(c.amountSold), c.sold, codec.amount(c.amountBought), c.bought)
  }

  function SellerDetails(codec: Codec, buyer: string, c: Claim): Details
    requires c.OrderBook? || c.V0?
  {
    OfferDetails(c.offerId, buyer, codec.amount(c.amountBought), c.bought, codec.amount(c.amountSold), c.sold)
  }

  // The pool a claim was matched against.

  /** A ledger change has a state before or one after. */
  type LedgerChange = c: Change | c.pre.Some? || c.post.Some?
    witness Change(OtherEntry, None, Some(Entry(None, "", "")))

  /** What addLPTradeEffect reads: the operation's changes, which can fail to be read, and liquidityPoolDetails. */
  datatype Pools = Pools(changes: Result<seq<LedgerChange>, string>, details: Entry -> map<string, string>)

  /** A change of the pool, by its id in hex; both states, where there are two, carry it. */
  predicate CarriesPool(c: LedgerChange, id: string) {
    && c.entryType.LiquidityPoolEntry?
    && (c.pre.Some? ==> c.pre.value.tag == id)
    && (c.post.Some? ==> c.post.value.tag == id)
  }

  function StateOf(c: LedgerChange): Entry {
    if c.post.Some? then c.post.value else c.pre.value
  }

  /** The pool's state in the first change that carries it. */
  function FindPool(changes: seq<LedgerChange>, id: string): Option<Entry> {
    if changes == [] then None
    else if CarriesPool(changes[0], id) then Some(StateOf(changes[0]))
    else FindPool(changes[1..], id)
  }

  /** Nothing is found if and only if no pool change carries the id. */
  lemma {:induction false} PoolFoundExactly(changes: seq<LedgerChange>, id: string)
    ensures FindPool(changes, id) == None <==> forall c | c in changes :: !CarriesPool(c, id)
  {
    if changes != [] && !CarriesPool(changes[0], id) {
      PoolFoundExactly(changes[1..], id);
      assert forall c :: c in changes <==> c == changes[0] || c in changes[1..];
    }
  }

  /** getLiquidityPoolDelta, without the reserve differences its caller drops. */
  method GetLiquidityPoolDelta(changes: Result<seq<LedgerChange>, string>, id: string) returns (lp: Result<Entry, string>)
    ensures lp.Err? <==> changes.Err? || forall c | c in changes.value :: !CarriesPool(c, id)
    ensures lp.Ok? ==> exists k :: 0 <= k < |changes.value| && CarriesPool(changes.value[k], id) &&
                                   lp.value == StateOf(changes.value[k]) &&
                                   forall j | 0 <= j < k :: !CarriesPool(changes.value[j], id)
    ensures lp.Ok? ==> FindPool(changes.value, id) == Some(lp.value)
  {
    if changes.Err? {
      return Err(changes.error);
    }
    var all := changes.value;
    assert all[0..] == all;
    for k := 0 to |all|
      invariant forall j | 0 <= j < k :: !CarriesPool(all[j], id)
      invariant FindPool(all, id) == FindPool(all[k..], id)
    {
      var c := all[k];
      assert all[k..][0] == c && all[k..][1..] == all[k + 1..];
      if !c.entryType.LiquidityPoolEntry? {
        continue;
      }
      var state: Option<Entry> := None;
      if c.pre.Some? {
        if c.pre.value.tag != id {
          continue;
        }
        state := c.pre;
      }
      if c.post.Some? {
        if c.post.value.tag != id {
          continue;
        }
        state := c.post;
      }
      assert c in all;
      return Ok(state.value);
    }
    return Err("liquidity pool change not found");
  }

  /** The pool a claim's record shows. */
  function PoolOf(codec: Codec, pools: Pools, c: Claim): Option<Entry>
    requires c.LiquidityPool?
  {
    if pools.changes.Err? then None else FindPool(pools.changes.value, codec.hex(c.poolId))
  }

  ghost function ClaimEffects(codec: Codec, source: string, pools: Pools, c: Claim): seq<EffectRecord>
    requires !c.Other?
  {
    if Zero(c) then []
    else if c.LiquidityPool? then
      if PoolOf(codec, pools, c).None? then [] else
        [EffectRecord(source, LiquidityPoolTrade,
          map["liquidity_pool" := M(pools.details(PoolOf(codec, pools, c).value)),
              "sold" := M(map["asset" := Canonical(c.sold), "amount" := codec.amount(c.amountSold)]),
              "bought" := M(map["asset" := Canonical(c.bought), "amount" := codec.amount(c.amountBought)])])]
    else
      var bd, sd, seller := BuyerDetails(codec, c), SellerDetails(codec, source, c), codec.address(c.seller);
      [EffectRecord(source, Trade, bd), EffectRecord(seller, Trade, sd),
       EffectRecord(source, OfferUpdated, bd), EffectRecord(seller, OfferUpdated, sd),
       EffectRecord(source, OfferRemoved, bd), EffectRecord(seller, OfferRemoved, sd)]
  }

  ghost function TradeEffects(codec: Codec, source: string, pools: Pools, claims: seq<Claim>): seq<EffectRecord>
    requires forall c | c in claims :: !c.Other?
  {
    if claims == [] then [] else
      TradeEffects(codec, source, pools, claims[..|claims| - 1]) + ClaimEffects(codec, source, pools, claims[|claims| - 1])
  }

  lemma ZeroHasNoEffects(codec: Codec, source: string, pools: Pools, c: Claim)
    requires !c.Other? && Zero(c)
    ensures ClaimEffects(codec, source, pools, c) == []
  {
  }

  /** addTradeEffects; its callers pass the operation's source account as the buyer. */
  method AddTradeEffects(efx: Efx, codec: Codec, pools: Pools, claims: seq<Claim>)
    requires forall c | c in claims :: !c.Other?
    modifies efx
    ensures efx.records == old(efx.records) + TradeEffects(codec, efx.source, pools, claims)
  {
    hide ClaimEffects;
    var buyer := efx.source;
    for i := 0 to |claims|
      invariant efx.records == old(efx.records) + TradeEffects(codec, buyer, pools, claims[..i])
    {
      var claim := claims[i];
      assert claims[..i + 1][..i] == claims[..i];
      if claim.amountSold == 0 && claim.amountBought == 0 {
        ZeroHasNoEffects(codec, buyer, pools, claim);
        continue;
      }
      if claim.LiquidityPool? {
        AddLPTradeEffect(efx, codec, pools, claim);
      } else {
        AddOfferTradeEffects(efx, codec, pools, claim);
      }
    }
    assert claims[..|claims|] == claims;
  }

  lemma DetailsBuilt(offerId: int, seller: string, boughtAmount: string, bought: Asset, soldAmount: string, sold: Asset)
    ensures map["offer_id" := N(offerId), "seller" := S(seller), "bought_amount" := S(boughtAmount), "sold_amount" := S(soldAmount)] +
            AssetDetails(bought, "bought_") + AssetDetails(sold, "sold_") ==
            OfferDetails(offerId, seller, boughtAmount, bought, soldAmount, sold)
    ensures map["offer_id" := N(offerId), "bought_amount" := S(boughtAmount), "sold_amount" := S(soldAmount)]["seller" := S(seller)] +
            AssetDetails(bought, "bought_") + AssetDetails(sold, "sold_") ==
            OfferDetails(offerId, seller, boughtAmount, bought, soldAmount, sold)
  {
    hide AssetDetails;
    assert map["offer_id" := N(offerId), "bought_amount" := S(boughtAmount), "sold_amount" := S(soldAmount)]["seller" := S(seller)] ==
           map["offer_id" := N(offerId), "seller" := S(seller), "bought_amount" := S(boughtAmount), "sold_amount" := S(soldAmount)];
  }

  method AddOfferTradeEffects(efx: Efx, codec: Codec, pools: Pools, claim: Claim)
    requires (claim.OrderBook? || claim.V0?) && !Zero(claim)
    modifies efx
    ensures efx.records == old(efx.records) + ClaimEffects(codec, efx.source, pools, claim)
  {
    hide AssetDetails, OfferDetails;
    var buyer, seller := efx.source, codec.address(claim.seller);
    var bd: Details := map["offer_id" := N(claim.offerId), "seller" := S(seller),
                           "bought_amount" := S(codec.amount(claim.amountSold)),
                           "sold_amount" := S(codec.amount(claim.amountBought))];
    bd := bd + AssetDetails(claim.sold, "bought_");
    bd := bd + AssetDetails(claim.bought, "sold_");
    DetailsBuilt(claim.offerId, seller, codec.amount(claim.amountSold), claim.sold, codec.amount(claim.amountBought), claim.bought);
    var sd: Details := map["offer_id" := N(claim.offerId),
                           "bought_amount" := S(codec.amount(claim.amountBought)),
                           "sold_amount" := S(codec.amount(claim.amountSold))];
    sd := sd["seller" := S(buyer)];
    sd := sd + AssetDetails(claim.bought, "bought_");
    sd := sd + AssetDetails(claim.sold, "sold_");
    DetailsBuilt(claim.offerId, buyer, codec.amount(claim.amountBought), claim.bought, codec.amount(claim.amountSold), claim.sold);
    AddSix(efx, buyer, seller, bd, sd);
  }

  /** The six records, buyer and seller in turn. */
  method AddSix(efx: Efx, buyer: string, seller: string, bd: Details, sd: Details)
    modifies efx
    ensures efx.records == old(efx.records) + [
      EffectRecord(buyer, Trade, bd), EffectRecord(seller, Trade, sd),
      EffectRecord(buyer, OfferUpdated, bd), EffectRecord(seller, OfferUpdated, sd),
      EffectRecord(buyer, OfferRemoved, bd), EffectRecord(seller, OfferRemoved, sd)]
  {
    efx.Add(buyer, Trade, bd);
    efx.Add(seller, Trade, sd);
    efx.Add(buyer, OfferUpdated, bd);
    efx.Add(seller, OfferUpdated, sd);
    efx.Add(buyer, OfferRemoved, bd);
    efx.Add(seller, OfferRemoved, sd);
  }

  /** addLPTradeEffect. */
  method AddLPTradeEffect(efx: Efx, codec: Codec, pools: Pools, claim: Claim)
    requires claim.LiquidityPool? && !Zero(claim)
    modifies efx
    ensures efx.records == old(efx.records) + ClaimEffects(codec, efx.source, pools, claim)
  {
    var lp := GetLiquidityPoolDelta(pools.changes, codec.hex(claim.poolId));
    if pools.changes.Ok? {
      PoolFoundExactly(pools.changes.value, codec.hex(claim.poolId));
    }
    if lp.Err? {
      return;
    }
    var details: Details :=
      map["liquidity_pool" := M(pools.details(lp.value)),
          "sold" := M(map["asset" := Canonical(claim.sold), "amount" := codec.amount(claim.amountSold)]),
          "bought" := M(map["asset" := Canonical(claim.bought), "amount" := codec.amount(claim.amountBought)])];
    efx.Add(efx.source, LiquidityPoolTrade, details);
  }

  // The mirror.

  /** One side of a trade: how much of which asset. */
  datatype Leg = Leg(amount: string, code: Option<string>, issuer: Option<string>)

  function Selling(row: TradeRow): Leg {
    Leg(row.sellingAmount, row.sellingCode, row.sellingIssuer)
  }

  function Buying(row: TradeRow): Leg {
    Leg(row.buyingAmount, row.buyingCode, row.buyingIssuer)
  }

  ghost predicate HasLeg(r: EffectRecord, prefix: string, leg: Leg) {
    && Detail(r, prefix + "amount") == Some(leg.amount)
    && (if leg.code.None?
        then Detail(r, prefix + "asset_type") == Some("native") && prefix + "asset_code" !in r.details
        else Detail(r, prefix + "asset_code") == leg.code && Detail(r, prefix + "asset_issuer") == leg.issuer)
  }

  /** A record of the given type whose account bought one leg, sold the other, and faced `seller`. */
  ghost predicate HasSides(r: EffectRecord, t: EffectType, bought: Leg, sold: Leg, seller: string) {
    r.effectType == t && HasLeg(r, "bought_", bought) && HasLeg(r, "sold_", sold) && Detail(r, "seller") == Some(seller)
  }

  /** The two records of one type: what the row's seller sold, the buyer bought, and the other way round. */
  ghost predicate Swapped(row: TradeRow, b: EffectRecord, s: EffectRecord, t: EffectType) {
    && HasSides(b, t, Selling(row), Buying(row), s.address)
    && HasSides(s, t, Buying(row), Selling(row), b.address)
  }

  /** What a pool record's "sold" or "bought" object says of a leg: its amount, and its asset in canonical form. */
  ghost predicate PoolLeg(r: EffectRecord, key: string, leg: Leg) {
    && key in r.details && r.details[key].M?
    && (leg.code.Some? ==> leg.issuer.Some?)
    && r.details[key].fields == map["asset" := if leg.code.None? then "native" else leg.code.value + ":" + leg.issuer.value,
                                    "amount" := leg.amount]
  }

  ghost predicate Mirrors(row: TradeRow, source: string, block: seq<EffectRecord>) {
    if row.liquidityPoolId.None? then
      && |block| == 6
      && (forall k | 0 <= k < 6 :: block[k].address == if k % 2 == 0 then source else block[1].address)
      && Swapped(row, block[0], block[1], Trade)
      && Swapped(row, block[2], block[3], OfferUpdated)
      && Swapped(row, block[4], block[5], OfferRemoved)
    else
      |block| <= 1 && forall r | r in block ::
        && r.address == source && r.effectType == LiquidityPoolTrade
        && PoolLeg(r, "sold", Selling(row)) && PoolLeg(r, "bought", Buying(row))
  }

  /** A claim without effects: a zero one, or a pool's when no readable change of the operation carries the pool. */
  predicate Silent(codec: Codec, pools: Pools, c: Claim) {
    || Zero(c)
    || (c.LiquidityPool? &&
        (pools.changes.Err? || forall l | l in pools.changes.value :: !CarriesPool(l, codec.hex(c.poolId))))
  }

  lemma AssetDetailKeys(a: Asset, prefix: string)
    requires prefix != ""
    ensures forall k | k in AssetDetails(a, prefix) :: |k| >= |prefix| + 10 && k[0] == prefix[0]
  {
    assert |"asset_type"| == 10 && |"asset_code"| == 10 && |"asset_issuer"| == 12;
  }

  lemma LegFromDetails(address: string, t: EffectType, d: Details, prefix: string, a: Asset, amount: string)
    requires forall k | k in AssetDetails(a, prefix) :: k in d && d[k] == AssetDetails(a, prefix)[k]
    requires forall k | k in d && |k| >= |prefix| + 10 && k[..|prefix|] == prefix :: k in AssetDetails(a, prefix)
    requires prefix + "amount" in d && d[prefix + "amount"] == S(amount)
    ensures HasLeg(EffectRecord(address, t, d), prefix, Leg(amount, AssetCodeIssuer(a).0, AssetCodeIssuer(a).1))
  {
    assert (prefix + "asset_type")[|prefix|..] == "asset_type";
    assert (prefix + "asset_code")[|prefix|..] == "asset_code" && (prefix + "asset_code")[..|prefix|] == prefix;
    assert (prefix + "asset_issuer")[|prefix|..] == "asset_issuer";
    assert "asset_type"[6] != "asset_code"[6];
    assert |"asset_issuer"| == 12;
  }

  /** Short keys and two families of long ones, told apart by their first letter, do not overwrite each other. */
  lemma MergedDetails(short: Details, b: Details, s: Details)
    requires forall k | k in short :: |k| < 15
    requires forall k | k in b :: |k| >= 15 && k[0] == 'b'
    requires forall k | k in s :: |k| >= 15 && k[0] == 's'
    ensures forall k | k in short :: k in short + b + s && (short + b + s)[k] == short[k]
    ensures forall k | k in b :: k in short + b + s && (short + b + s)[k] == b[k]
    ensures forall k | k in s :: k in short + b + s && (short + b + s)[k] == s[k]
    ensures forall k | k in short + b + s && |k| >= 15 :: if k[0] == 'b' then k in b else k in s
  {
  }

  lemma OfferTermsKeys(offerId: int, seller: string, boughtAmount: string, soldAmount: string)
    ensures var d := OfferTerms(offerId, seller, boughtAmount, soldAmount);
            && (forall k | k in d :: |k| < 15)
            && "seller" in d && d["seller"] == S(seller)
            && "bought_amount" in d && d["bought_amount"] == S(boughtAmount)
            && "sold_amount" in d && d["sold_amount"] == S(soldAmount)
            && "offer_id" in d && d["offer_id"] == N(offerId)
  {
  }

  lemma SidesFromDetails(address: string, t: EffectType, offerId: int, seller: string,
                         boughtAmount: string, bought: Asset, soldAmount: string, sold: Asset)
    ensures HasSides(EffectRecord(address, t, OfferDetails(offerId, seller, boughtAmount, bought, soldAmount, sold)), t,
                     Leg(boughtAmount, AssetCodeIssuer(bought).0, AssetCodeIssuer(bought).1),
                     Leg(soldAmount, AssetCodeIssuer(sold).0, AssetCodeIssuer(sold).1), seller)
  {
    hide AssetDetails, HasLeg, AssetCodeIssuer, OfferTerms;
    var d := OfferDetails(offerId, seller, boughtAmount, bought, soldAmount, sold);
    OfferTermsKeys(offerId, seller, boughtAmount, soldAmount);
    AssetDetailKeys(bought, "bought_");
    AssetDetailKeys(sold, "sold_");
    assert "bought_"[0] == 'b' && "sold_"[0] == 's';
    MergedDetails(OfferTerms(offerId, seller, boughtAmount, soldAmount),
                  AssetDetails(bought, "bought_"), AssetDetails(sold, "sold_"));
    LegsFromDetails(address, t, d, bought, boughtAmount, sold, soldAmount);
  }

  lemma LegsFromDetails(address: string, t: EffectType, d: Details, bought: Asset, boughtAmount: string, sold: Asset, soldAmount: string)
    requires forall k | k in AssetDetails(bought, "bought_") :: k in d && d[k] == AssetDetails(bought, "bought_")[k]
    requires forall k | k in AssetDetails(sold, "sold_") :: k in d && d[k] == AssetDetails(sold, "sold_")[k]
    requires forall k | k in d && |k| >= 15 ::
               if k[0] == 'b' then k in AssetDetails(bought, "bought_") else k in AssetDetails(sold, "sold_")
    requires "bought_amount" in d && d["bought_amount"] == S(boughtAmount)
    requires "sold_amount" in d && d["sold_amount"] == S(soldAmount)
    ensures HasLeg(EffectRecord(address, t, d), "bought_", Leg(boughtAmount, AssetCodeIssuer(bought).0, AssetCodeIssuer(bought).1))
    ensures HasLeg(EffectRecord(address, t, d), "sold_", Leg(soldAmount, AssetCodeIssuer(sold).0, AssetCodeIssuer(sold).1))
  {
    hide AssetDetails, HasLeg, AssetCodeIssuer;
    assert "bought_" + "amount" == "bought_amount" && "sold_" + "amount" == "sold_amount";
    forall k | k in d && |k| >= 17 && k[..7] == "bought_" ensures k in AssetDetails(bought, "bought_") {
      assert k[0] == k[..7][0] == 'b';
    }
    LegFromDetails(address, t, d, "bought_", bought, boughtAmount);
    forall k | k in d && |k| >= 15 && k[..5] == "sold_" ensures k in AssetDetails(sold, "sold_") {
      assert k[0] == k[..5][0] == 's';
    }
    LegFromDetails(address, t, d, "sold_", sold, soldAmount);
  }

  /** A surviving claim's row and its effects mirror each other. */
  lemma ClaimMirror(codec: Codec, ctx: Context, source: string, pools: Pools, c: Claim, i: nat)
    requires !c.Other? && !Zero(c)
    ensures Mirrors(RowOf(codec, ctx, c, i), source, ClaimEffects(codec, source, pools, c))
  {
    hide OfferDetails, HasSides;
    if !c.LiquidityPool? {
      OfferMirror(codec, ctx, source, c, i, Trade);
      OfferMirror(codec, ctx, source, c, i, OfferUpdated);
      OfferMirror(codec, ctx, source, c, i, OfferRemoved);
    }
  }

  lemma OfferMirror(codec: Codec, ctx: Context, source: string, c: Claim, i: nat, t: EffectType)
    requires c.OrderBook? || c.V0?
    ensures Swapped(RowOf(codec, ctx, c, i), EffectRecord(source, t, BuyerDetails(codec, c)),
                    EffectRecord(codec.address(c.seller), t, SellerDetails(codec, source, c)), t)
  {
    hide OfferDetails, HasSides;
    var gave, got, seller := codec.amount(c.amountSold), codec.amount(c.amountBought), codec.address(c.seller);
    SidesFromDetails(source, t, c.offerId, seller, gave, c.sold, got, c.bought);
    SidesFromDetails(seller, t, c.offerId, source, got, c.bought, gave, c.sold);
  }

  lemma {:induction false} TradeEffectsConcat(codec: Codec, source: string, pools: Pools, a: seq<Claim>, b: seq<Claim>)
    requires forall c | c in a + b :: !c.Other?
    ensures forall c | c in a || c in b :: !c.Other?
    ensures TradeEffects(codec, source, pools, a + b) ==
            TradeEffects(codec, source, pools, a) + TradeEffects(codec, source, pools, b)
  {
    hide ClaimEffects;
    assert forall c | c in a || c in b :: c in a + b;
    if b == [] {
      assert a + b == a;
    } else {
      assert (a + b)[..|a + b| - 1] == a + b[..|b| - 1];
      TradeEffectsConcat(codec, source, pools, a, b[..|b| - 1]);
    }
  }

  /**
   Rows and effects mirror, claim by claim: both extractors skip the zero claims and only those; a
   surviving claim has one row, under its position, and its block of effects mirrors that row. The
   block is empty exactly for a zero claim and for a pool no change of the operation carries, so a row has no
   effect exactly in the second case. Row and effects name the seller alike exactly when the claim
   is not a V0 one, whose row keeps the key in hex.
   */
  lemma TradesMirror(codec: Codec, ctx: Context, source: string, pools: Pools, claims: seq<Claim>, i: nat)
      returns (block: seq<EffectRecord>)
    requires codec.Valid() && i < |claims| && forall c | c in claims :: !c.Other?
    ensures (forall c | c in claims[..i] || c in claims[i + 1..] :: !c.Other?) &&
            TradeEffects(codec, source, pools, claims) ==
            TradeEffects(codec, source, pools, claims[..i]) + block + TradeEffects(codec, source, pools, claims[i + 1..])
    ensures block == [] <==> Silent(codec, pools, claims[i])
    ensures Zero(claims[i]) ==> forall row | row in Rows(codec, ctx, claims) :: row.tradeIndex != i
    ensures !Zero(claims[i]) ==> exists row | row in Rows(codec, ctx, claims) ::
              && row.tradeIndex == i && Mirrors(row, source, block)
              && (row.liquidityPoolId.None? ==> (row.sellerAccount == block[1].address <==> !claims[i].V0?))
    ensures Identified(codec, pools, claims[i], block)
    ensures IndexAscending(Rows(codec, ctx, claims))
  {
    hide TradeEffects, ClaimEffects, Rows, RowOf, Mirrors, Zero, Silent, IndexAscending;
    var c := claims[i];
    block := ClaimEffects(codec, source, pools, c);
    SplitEffects(codec, source, pools, claims, i);
    RowAtPosition(codec, ctx, claims, i);
    BlockEmpty(codec, source, pools, c);
    BlockIdentified(codec, source, pools, c);
    if !Zero(c) {
      ClaimMirror(codec, ctx, source, pools, c, i);
      RowNames(codec, ctx, source, pools, c, i);
    }
  }

  /** Every record of a claim names its offer, or shows its pool's state in the first change that carries it. */
  ghost predicate Identified(codec: Codec, pools: Pools, c: Claim, block: seq<EffectRecord>) {
    forall r | r in block ::
      match c
      case OrderBook(_, offer, _, _, _, _) => "offer_id" in r.details && r.details["offer_id"] == N(offer)
      case V0(_, offer, _, _, _, _) => "offer_id" in r.details && r.details["offer_id"] == N(offer)
      case LiquidityPool(id, _, _, _, _) =>
        && "liquidity_pool" in r.details && pools.changes.Ok?
        && exists k :: 0 <= k < |pools.changes.value| && CarriesPool(pools.changes.value[k], codec.hex(id)) &&
                       r.details["liquidity_pool"] == M(pools.details(StateOf(pools.changes.value[k]))) &&
                       forall j | 0 <= j < k :: !CarriesPool(pools.changes.value[j], codec.hex(id))
      case Other(_, _) => true
  }

  lemma OfferIdKept(offerId: int, seller: string, boughtAmount: string, bought: Asset, soldAmount: string, sold: Asset)
    ensures var d := OfferDetails(offerId, seller, boughtAmount, bought, soldAmount, sold);
            "offer_id" in d && d["offer_id"] == N(offerId)
  {
    hide AssetDetails, OfferTerms;
    OfferTermsKeys(offerId, seller, boughtAmount, soldAmount);
    AssetDetailKeys(bought, "bought_");
    AssetDetailKeys(sold, "sold_");
    assert "bought_"[0] == 'b' && "sold_"[0] == 's';
    MergedDetails(OfferTerms(offerId, seller, boughtAmount, soldAmount),
                  AssetDetails(bought, "bought_"), AssetDetails(sold, "sold_"));
  }

  lemma {:induction false} FirstCarrier(changes: seq<LedgerChange>, id: string) returns (k: nat)
    requires FindPool(changes, id).Some?
    ensures k < |changes| && CarriesPool(changes[k], id) && FindPool(changes, id) == Some(StateOf(changes[k]))
    ensures forall j | 0 <= j < k :: !CarriesPool(changes[j], id)
  {
    if CarriesPool(changes[0], id) {
      return 0;
    }
    var n := FirstCarrier(changes[1..], id);
    k := n + 1;
    forall j | 0 <= j < k ensures !CarriesPool(changes[j], id) {
      assert j > 0 ==> changes[j] == changes[1..][j - 1];
    }
  }

  lemma BlockIdentified(codec: Codec, source: string, pools: Pools, c: Claim)
    requires !c.Other?
    ensures Identified(codec, pools, c, ClaimEffects(codec, source, pools, c))
  {
    hide OfferDetails, FindPool, CarriesPool, StateOf;
    if c.LiquidityPool? {
      if PoolOf(codec, pools, c).Some? {
        var k := FirstCarrier(pools.changes.value, codec.hex(c.poolId));
      }
    } else {
      OfferIdKept(c.offerId, codec.address(c.seller), codec.amount(c.amountSold), c.sold, codec.amount(c.amountBought), c.bought);
      OfferIdKept(c.offerId, source, codec.amount(c.amountBought), c.bought, codec.amount(c.amountSold), c.sold);
    }
  }

  lemma BlockEmpty(codec: Codec, source: string, pools: Pools, c: Claim)
    requires !c.Other?
    ensures ClaimEffects(codec, source, pools, c) == [] <==> Silent(codec, pools, c)
  {
    if c.LiquidityPool? && pools.changes.Ok? {
      PoolFoundExactly(pools.changes.value, codec.hex(c.poolId));
    }
  }

  lemma RowAtPosition(codec: Codec, ctx: Context, claims: seq<Claim>, i: nat)
    requires i < |claims| && !claims[i].Other?
    ensures IndexAscending(Rows(codec, ctx, claims))
    ensures Zero(claims[i]) ==> forall row | row in Rows(codec, ctx, claims) :: row.tradeIndex != i
    ensures !Zero(claims[i]) ==> RowOf(codec, ctx, claims[i], i) in Rows(codec, ctx, claims)
  {
    hide RowsEmitting, Zero, IndexAscending;
    RowsAreSurvivingClaims(KNOWN, codec, ctx, claims);
    if !Zero(claims[i]) {
      assert FromClaim(KNOWN, codec, ctx, claims, RowOf(codec, ctx, claims[i], i));
    }
  }

  lemma RowNames(codec: Codec, ctx: Context, source: string, pools: Pools, c: Claim, i: nat)
    requires codec.Valid() && !c.Other? && !Zero(c)
    ensures var row, block := RowOf(codec, ctx, c, i), ClaimEffects(codec, source, pools, c);
            && row.tradeIndex == i && row.buyerAccount == ctx.buyer
            && (row.liquidityPoolId.None? ==> |block| == 6 && (row.sellerAccount == block[1].address <==> !c.V0?))
  {
    if c.V0? {
      assert codec.address(c.seller)[0] == 'G' && 'G' !in codec.hex(c.seller);
    }
  }

  lemma SplitEffects(codec: Codec, source: string, pools: Pools, claims: seq<Claim>, i: nat)
    requires i < |claims| && forall c | c in claims :: !c.Other?
    ensures (forall c | c in claims[..i] || c in claims[i + 1..] :: !c.Other?) && !claims[i].Other? &&
            TradeEffects(codec, source, pools, claims) ==
            TradeEffects(codec, source, pools, claims[..i]) + ClaimEffects(codec, source, pools, claims[i]) +
            TradeEffects(codec, source, pools, claims[i + 1..])
  {
    hide ClaimEffects;
    var front, back := claims[..i + 1], claims[i + 1..];
    assert front + back == claims && front[..i] == claims[..i];
    TradeEffectsConcat(codec, source, pools, front, back);
  }

  // The trades of a ledger.

  datatype Body = OfferBody | PathPayment(destination: string) | OtherBody

  /** An operation; without a source account of its own it has the transaction's. */
  datatype Operation = Operation(source: Option<string>, body: Body)

  datatype ResultArm = OfferArm | PathArm | OtherArm

  datatype OperationResult = NotInner | Inner(arm: ResultArm, success: bool, offers: seq<Claim>)

  /** A transaction; `results` is None when OperationResults is absent. */
  datatype TradeTransaction = TradeTransaction(
    hash: string, successful: bool, source: string, operations: seq<Operation>, results: Option<seq<OperationResult>>)
  {
    /** A path payment's inner result is a path payment's, as the Must accessors demand. */
    predicate Valid() {
      results.Some? ==> forall i | 0 <= i < |operations| && i < |results.value| ::
        operations[i].body.PathPayment? && results.value[i].Inner? ==> results.value[i].arm.PathArm?
    }
  }

  /** offerClaimsFromResult. */
  function OfferClaimsFromResult(r: OperationResult): seq<Claim> {
    if r.Inner? && r.arm.OfferArm? && r.success then r.offers else []
  }

  /** The claims read from operation `i` and the account named as their buyer. */
  function OperationClaims(tx: TradeTransaction, i: nat): (seq<Claim>, string)
    requires i < |tx.operations|
  {
    if tx.results.None? || i >= |tx.results.value| then ([], "") else
      var r := tx.results.value[i];
      match tx.operations[i].body
      case OfferBody => (OfferClaimsFromResult(r), tx.source)
      case PathPayment(destination) => (if r.Inner? && r.success then r.offers else [], destination)
      case OtherBody => ([], "")
  }

  ghost function OperationRows(codec: Codec, tx: TradeTransaction, i: nat): seq<TradeRow>
    requires i < |tx.operations|
  {
    Rows(codec, Context(tx.hash, i, OperationClaims(tx, i).1), OperationClaims(tx, i).0)
  }

  /** The rows of a transaction's first `n` operations. */
  ghost function TransactionRows(codec: Codec, tx: TradeTransaction, n: nat): seq<TradeRow>
    requires n <= |tx.operations|
  {
    if n == 0 || !tx.successful then [] else TransactionRows(codec, tx, n - 1) + OperationRows(codec, tx, n - 1)
  }

  ghost function LedgerTrades(codec: Codec, txs: seq<TradeTransaction>): seq<TradeRow> {
    if txs == [] then [] else
      var tx := txs[|txs| - 1];
      LedgerTrades(codec, txs[..|txs| - 1]) + TransactionRows(codec, tx, |tx.operations|)
  }

  /** The operation loop of ExtractTrades. */
  method ExtractTransactionTrades(codec: Codec, before: seq<TradeRow>, tx: TradeTransaction) returns (trades: seq<TradeRow>)
    requires tx.Valid() && tx.successful
    ensures trades == before + TransactionRows(codec, tx, |tx.operations|)
  {
    hide Rows;
    trades := before;
    for i := 0 to |tx.operations|
      invariant trades == before + TransactionRows(codec, tx, i)
    {
      NoRows(codec, Context(tx.hash, i, OperationClaims(tx, i).1));
      if tx.results.None? || i >= |tx.results.value| {
        continue;
      }
      var result := tx.results.value[i];
      match tx.operations[i].body {
        case OfferBody =>
          trades := AppendTradesFromClaims(codec, trades, OfferClaimsFromResult(result), Context(tx.hash, i, tx.source));
        case PathPayment(destination) =>
          if result.NotInner? {
            continue;
          }
          if !result.success {
            continue;
          }
          trades := AppendTradesFromClaims(codec, trades, result.offers, Context(tx.hash, i, destination));
        case OtherBody =>
      }
    }
  }

  lemma NoRows(codec: Codec, ctx: Context)
    ensures Rows(codec, ctx, []) == []
  {
  }

  /** ExtractTrades, over transactions already read. */
  method ExtractTrades(codec: Codec, txs: seq<TradeTransaction>) returns (trades: seq<TradeRow>)
    requires forall tx | tx in txs :: tx.Valid()
    ensures trades == LedgerTrades(codec, txs)
  {
    trades := [];
    for n := 0 to |txs|
      invariant trades == LedgerTrades(codec, txs[..n])
    {
      assert txs[..n + 1][..n] == txs[..n];
      if !txs[n].successful {
        continue;
      }
      trades := ExtractTransactionTrades(codec, trades, txs[n]);
    }
    assert txs[..|txs|] == txs;
  }

  // What a row says, and which rows there are.

  ghost predicate StatesAsset(code: Option<string>, issuer: Option<string>, a: Asset) {
    match a
    case Native => code == None && issuer == None
    case Credit(_, c, i) => code == Some(c) && issuer == Some(i)
  }

  ghost predicate StatesLegs(codec: Codec, row: TradeRow, sold: Asset, amountSold: int, bought: Asset, amountBought: int) {
    && StatesAsset(row.sellingCode, row.sellingIssuer, sold) && row.sellingAmount == codec.amount(amountSold)
    && StatesAsset(row.buyingCode, row.buyingIssuer, bought) && row.buyingAmount == codec.amount(amountBought)
    && row.price == row.buyingAmount + "/" + row.sellingAmount
  }

  /** The row states the claim: what was sold is what the row's seller sells. */
  ghost predicate StatesClaim(codec: Codec, row: TradeRow, c: Claim) {
    match c
    case OrderBook(seller, _, sold, amountSold, bought, amountBought) =>
      row.tradeType == Orderbook && row.liquidityPoolId == None && row.sellerAccount == codec.address(seller) &&
      StatesLegs(codec, row, sold, amountSold, bought, amountBought)
    case V0(seller, _, sold, amountSold, bought, amountBought) =>
      row.tradeType == Orderbook && row.liquidityPoolId == None && row.sellerAccount == codec.hex(seller) &&
      StatesLegs(codec, row, sold, amountSold, bought, amountBought)
    case LiquidityPool(id, sold, amountSold, bought, amountBought) =>
      row.tradeType == Pool && row.liquidityPoolId == Some(codec.hex(id)) && row.sellerAccount == "" &&
      StatesLegs(codec, row, sold, amountSold, bought, amountBought)
    case Other(_, _) => false
  }

  lemma RowStatesClaim(codec: Codec, ctx: Context, c: Claim, i: nat)
    requires !c.Other?
    ensures var row := RowOf(codec, ctx, c, i);
            && StatesClaim(codec, row, c) && row.buyerAccount == ctx.buyer
            && row.transactionHash == ctx.transactionHash && row.operationIndex == ctx.operationIndex && row.tradeIndex == i
  {
  }

  /** Claim `k` of operation `i` makes a trade: the transaction and the operation succeeded, and it is a known, nonzero claim. */
  ghost predicate TradedAt(tx: TradeTransaction, i: nat, k: nat) {
    && tx.successful && tx.results.Some? && i < |tx.operations| && i < |tx.results.value|
    && var result := tx.results.value[i];
    && result.Inner? && result.success && k < |result.offers|
    && !result.offers[k].Other? && (result.offers[k].amountSold != 0 || result.offers[k].amountBought != 0)
    && match tx.operations[i].body
       case OfferBody => result.arm == OfferArm
       case PathPayment(_) => true
       case OtherBody => false
  }

  /** The row is that trade's: it states the claim, and names the buyer, the transaction and the positions. */
  ghost predicate IsTrade(codec: Codec, tx: TradeTransaction, i: nat, row: TradeRow) {
    && TradedAt(tx, i, row.tradeIndex)
    && StatesClaim(codec, row, tx.results.value[i].offers[row.tradeIndex])
    && row.transactionHash == tx.hash && row.operationIndex == i
    && row.buyerAccount == match tx.operations[i].body
                           case PathPayment(destination) => destination
                           case _ => tx.source
  }

  lemma OperationTrades(codec: Codec, tx: TradeTransaction, i: nat)
    requires i < |tx.operations| && tx.successful
    ensures forall row | row in OperationRows(codec, tx, i) :: IsTrade(codec, tx, i, row)
    ensures forall k: nat | TradedAt(tx, i, k) :: exists row :: row in OperationRows(codec, tx, i) && row.tradeIndex == k
  {
    hide RowsEmitting, RowOf, StatesClaim;
    var (claims, buyer) := OperationClaims(tx, i);
    var ctx := Context(tx.hash, i, buyer);
    RowsAreSurvivingClaims(KNOWN, codec, ctx, claims);
    forall row | row in OperationRows(codec, tx, i) ensures IsTrade(codec, tx, i, row) {
      RowStatesClaim(codec, ctx, claims[row.tradeIndex], row.tradeIndex);
    }
    forall k: nat | TradedAt(tx, i, k) ensures exists row :: row in OperationRows(codec, tx, i) && row.tradeIndex == k {
      RowStatesClaim(codec, ctx, claims[k], k);
      assert FromClaim(KNOWN, codec, ctx, claims, RowOf(codec, ctx, claims[k], k));
    }
  }

  lemma {:induction false} TransactionTrades(codec: Codec, tx: TradeTransaction, n: nat)
    requires n <= |tx.operations|
    ensures forall row | row in TransactionRows(codec, tx, n) :: IsTrade(codec, tx, row.operationIndex, row)
    ensures forall i: nat, k: nat | i < n && TradedAt(tx, i, k) ::
              exists row :: row in TransactionRows(codec, tx, n) && row.operationIndex == i && row.tradeIndex == k
  {
    hide OperationRows, StatesClaim;
    if n > 0 && tx.successful {
      TransactionTrades(codec, tx, n - 1);
      OperationTrades(codec, tx, n - 1);
      var before, last := TransactionRows(codec, tx, n - 1), OperationRows(codec, tx, n - 1);
      hide TransactionRows, IsTrade, TradedAt;
      TransactionRowsLast(codec, tx, n);
      forall i: nat, k: nat | i < n && TradedAt(tx, i, k)
        ensures exists row: TradeRow :: row in before + last && row.operationIndex == i && row.tradeIndex == k
      {
        if i < n - 1 {
          var row :| row in before && row.operationIndex == i && row.tradeIndex == k;
          assert row in before + last;
        } else {
          var row :| row in last && row.tradeIndex == k;
          assert row in before + last;
          OperationOf(codec, tx, i, row);
        }
      }
    }
  }

  lemma TransactionRowsLast(codec: Codec, tx: TradeTransaction, n: nat)
    requires 0 < n <= |tx.operations| && tx.successful
    ensures TransactionRows(codec, tx, n) == TransactionRows(codec, tx, n - 1) + OperationRows(codec, tx, n - 1)
  {
  }

  lemma OperationOf(codec: Codec, tx: TradeTransaction, i: nat, row: TradeRow)
    requires i < |tx.operations| && row in OperationRows(codec, tx, i)
    ensures row.operationIndex == i
  {
    hide Rows;
    RowsCarryContext(codec, Context(tx.hash, i, OperationClaims(tx, i).1), OperationClaims(tx, i).0);
  }

  lemma LedgerTradesLast(codec: Codec, txs: seq<TradeTransaction>)
    requires txs != []
    ensures var tx := txs[|txs| - 1];
            LedgerTrades(codec, txs) == LedgerTrades(codec, txs[..|txs| - 1]) + TransactionRows(codec, tx, |tx.operations|)
  {
  }

  /** Every row of the ledger is the trade of one claim of one operation. */
  lemma {:induction false} LedgerTradesCome(codec: Codec, txs: seq<TradeTransaction>, row: TradeRow)
    requires row in LedgerTrades(codec, txs)
    ensures exists n :: 0 <= n < |txs| && IsTrade(codec, txs[n], row.operationIndex, row)
  {
    var last := |txs| - 1;
    LedgerTradesLast(codec, txs);
    TransactionTrades(codec, txs[last], |txs[last].operations|);
    hide LedgerTrades, TransactionRows, IsTrade;
    if row in LedgerTrades(codec, txs[..last]) {
      LedgerTradesCome(codec, txs[..last], row);
      var n :| 0 <= n < last && IsTrade(codec, txs[..last][n], row.operationIndex, row);
      assert txs[..last][n] == txs[n];
    } else {
      assert IsTrade(codec, txs[last], row.operationIndex, row);
    }
  }

  /** Every claim that makes a trade has its row. */
  lemma {:induction false} LedgerTradesCover(codec: Codec, txs: seq<TradeTransaction>, n: nat, i: nat, k: nat) returns (row: TradeRow)
    requires n < |txs| && TradedAt(txs[n], i, k)
    ensures row in LedgerTrades(codec, txs) && IsTrade(codec, txs[n], i, row) && row.tradeIndex == k
  {
    hide LedgerTrades, TransactionRows, IsTrade, TradedAt;
    var last := |txs| - 1;
    LedgerTradesLast(codec, txs);
    if n < last {
      assert txs[..last][n] == txs[n];
      row := LedgerTradesCover(codec, txs[..last], n, i, k);
    } else {
      row := TransactionTradeFound(codec, txs[last], i, k);
    }
  }

  lemma TransactionTradeFound(codec: Codec, tx: TradeTransaction, i: nat, k: nat) returns (row: TradeRow)
    requires TradedAt(tx, i, k)
    ensures row in TransactionRows(codec, tx, |tx.operations|) && IsTrade(codec, tx, i, row) && row.tradeIndex == k
  {
    assert i < |tx.operations|;
    hide TransactionRows, TradedAt, IsTrade;
    TransactionTrades(codec, tx, |tx.operations|);
    row :| row in TransactionRows(codec, tx, |tx.operations|) && row.operationIndex == i && row.tradeIndex == k;
  }

  /** Ordered by operation, then by position in its claims. */
  ghost predicate Ordered(rows: seq<TradeRow>) {
    forall a, b | 0 <= a < b < |rows| ::
      rows[a].operationIndex < rows[b].operationIndex ||
      (rows[a].operationIndex == rows[b].operationIndex && rows[a].tradeIndex < rows[b].tradeIndex)
  }

  lemma {:induction false} RowsCarryContext(codec: Codec, ctx: Context, claims: seq<Claim>)
    ensures forall row | row in Rows(codec, ctx, claims) ::
              row.transactionHash == ctx.transactionHash && row.operationIndex == ctx.operationIndex
  {
    if claims != [] {
      RowsCarryContext(codec, ctx, claims[..|claims| - 1]);
    }
  }

  lemma {:induction false} TransactionRowsOrdered(codec: Codec, tx: TradeTransaction, n: nat)
    requires n <= |tx.operations|
    ensures Ordered(TransactionRows(codec, tx, n))
    ensures forall row | row in TransactionRows(codec, tx, n) :: row.transactionHash == tx.hash && row.operationIndex < n
  {
    hide Rows;
    if n > 0 && tx.successful {
      TransactionRowsOrdered(codec, tx, n - 1);
      var ctx, claims := Context(tx.hash, n - 1, OperationClaims(tx, n - 1).1), OperationClaims(tx, n - 1).0;
      RowsCarryContext(codec, ctx, claims);
      RowsAscend(codec, ctx, claims);
      assert TransactionRows(codec, tx, n) == TransactionRows(codec, tx, n - 1) + Rows(codec, ctx, claims);
    }
  }

  lemma RowsAscend(codec: Codec, ctx: Context, claims: seq<Claim>)
    ensures IndexAscending(Rows(codec, ctx, claims))
  {
    RowsAreSurvivingClaims(KNOWN, codec, ctx, claims);
  }

  ghost predicate DistinctKeys(rows: seq<TradeRow>) {
    forall a, b | 0 <= a < b < |rows| ::
      (rows[a].transactionHash, rows[a].operationIndex, rows[a].tradeIndex) !=
      (rows[b].transactionHash, rows[b].operationIndex, rows[b].tradeIndex)
  }

  /** Over a ledger with distinct hashes, hash, operation index and trade index identify a row. */
  lemma {:induction false} TradeKeysDistinct(codec: Codec, txs: seq<TradeTransaction>)
    requires forall i, j | 0 <= i < j < |txs| :: txs[i].hash != txs[j].hash
    ensures DistinctKeys(LedgerTrades(codec, txs))
    ensures forall row | row in LedgerTrades(codec, txs) :: exists i :: 0 <= i < |txs| && txs[i].hash == row.transactionHash
  {
    hide TransactionRows;
    if txs != [] {
      var n := |txs| - 1;
      var front, tx := txs[..n], txs[n];
      TradeKeysDistinct(codec, front);
      TransactionRowsOrdered(codec, tx, |tx.operations|);
      var before, last := LedgerTrades(codec, front), TransactionRows(codec, tx, |tx.operations|);
      forall row | row in before ensures exists i :: 0 <= i < n && txs[i].hash == row.transactionHash {
        var i :| 0 <= i < |front| && front[i].hash == row.transactionHash;
        assert txs[i] == front[i];
      }
      KeysConcat(before, last, tx.hash);
    }
  }

  lemma KeysConcat(a: seq<TradeRow>, b: seq<TradeRow>, hash: string)
    requires DistinctKeys(a) && Ordered(b)
    requires (forall row | row in a :: row.transactionHash != hash) && forall row | row in b :: row.transactionHash == hash
    ensures DistinctKeys(a + b)
  {
    var s := a + b;
    forall i, j | 0 <= i < j < |s|
      ensures (s[i].transactionHash, s[i].operationIndex, s[i].tradeIndex) !=
              (s[j].transactionHash, s[j].operationIndex, s[j].tradeIndex)
    {
      if i < |a| <= j {
        assert a[i] in a && b[j - |a|] in b;
      }
    }
  }

  // The buyer, as rows and effects name it.

  /** sourceAccount: the account the operation's effects take as the buyer. */
  function OperationSource(tx: TradeTransaction, i: nat): string
    requires i < |tx.operations|
  {
    if tx.operations[i].source.Some? then tx.operations[i].source.value else tx.source
  }

  /** An offer without a source account other than the transaction's, or a path payment to its own source. */
  predicate BuysForItself(tx: TradeTransaction, i: nat)
    requires i < |tx.operations|
  {
    match tx.operations[i].body
    case OfferBody => tx.operations[i].source.None? || tx.operations[i].source.value == tx.source
    case PathPayment(destination) =>
      destination == if tx.operations[i].source.Some? then tx.operations[i].source.value else tx.source
    case OtherBody => true
  }

  /**
   For every operation and every claim with both a row and effects: the row names the effects'
   buyer exactly when the operation buys for itself.
   */
  lemma BuyersAgreeExactly(codec: Codec, tx: TradeTransaction, i: nat, pools: Pools, k: nat) returns (block: seq<EffectRecord>)
    requires codec.Valid() && tx.Valid() && i < |tx.operations|
    requires var claims := OperationClaims(tx, i).0;
             k < |claims| && !Silent(codec, pools, claims[k]) && forall c | c in claims :: !c.Other?
    ensures var claims, source := OperationClaims(tx, i).0, OperationSource(tx, i);
            (forall c | c in claims[..k] || c in claims[k + 1..] :: !c.Other?) &&
            TradeEffects(codec, source, pools, claims) ==
            TradeEffects(codec, source, pools, claims[..k]) + block + TradeEffects(codec, source, pools, claims[k + 1..])
    ensures block != [] && exists row | row in OperationRows(codec, tx, i) ::
              && row.tradeIndex == k && Mirrors(row, OperationSource(tx, i), block)
              && (row.buyerAccount == block[0].address <==> BuysForItself(tx, i))
  {
    hide TradeEffects, Rows, HasSides, PoolLeg, Zero;
    var (claims, buyer) := OperationClaims(tx, i);
    var ctx := Context(tx.hash, i, buyer);
    block := TradesMirror(codec, ctx, OperationSource(tx, i), pools, claims, k);
    assert !Zero(claims[k]);
    var row :| row in Rows(codec, ctx, claims) && row.tradeIndex == k && Mirrors(row, OperationSource(tx, i), block);
    RowBuyer(codec, ctx, claims, row);
    assert block[0] in block;
  }

  lemma {:induction false} RowBuyer(codec: Codec, ctx: Context, claims: seq<Claim>, row: TradeRow)
    requires row in Rows(codec, ctx, claims)
    ensures row.buyerAccount == ctx.buyer
  {
    RowsAreSurvivingClaims(KNOWN, codec, ctx, claims);
  }

  const SAMPLE: Claim := OrderBook("key", 1, Native, 5, Credit("credit_alphanum4", "USD", "GI"), 7)

  /** One offer, or one path payment, by an operation with the given source in a transaction of GA. */
  function SampleTrade(source: Option<string>, body: Body): TradeTransaction {
    TradeTransaction("hash", true, "GA", [Operation(source, body)],
                     Some([Inner(if body.PathPayment? then PathArm else OfferArm, true, [SAMPLE])]))
  }

  lemma NoEffects(codec: Codec, source: string, pools: Pools)
    ensures TradeEffects(codec, source, pools, []) == []
  {
  }

  /** They differ for an offer under another source account, and for a payment to somebody else. */
  lemma BuyersDiffer(codec: Codec, pools: Pools, body: Body) returns (block: seq<EffectRecord>)
    requires codec.Valid() && (body == OfferBody || body == PathPayment("GC"))
    ensures var tx := SampleTrade(Some("GB"), body);
            && block == TradeEffects(codec, OperationSource(tx, 0), pools, [SAMPLE]) && block != []
            && exists row | row in OperationRows(codec, tx, 0) :: row.tradeIndex == 0 && row.buyerAccount != block[0].address
  {
    hide Mirrors, TradeEffects, Rows, HasSides, PoolLeg;
    var tx := SampleTrade(Some("GB"), body);
    assert OperationClaims(tx, 0).0 == [SAMPLE] && !BuysForItself(tx, 0);
    block := BuyersAgreeExactly(codec, tx, 0, pools, 0);
    assert [SAMPLE][..0] == [] && [SAMPLE][1..] == [];
    NoEffects(codec, OperationSource(tx, 0), pools);
    assert [] + block + [] == block;
  }
}
