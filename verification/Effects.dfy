/**
 effects.go: effect records generated as differences between ledger states, and what replaying
 them gives back.
 */
module Effects {
  import opened Wrappers
  import Ordering
  import FnName

  datatype EffectType =
    | SignerCreated | SignerUpdated | SignerRemoved
    | SponsorshipCreated(entry: SponsoredType) | SponsorshipUpdated(entry: SponsoredType) | SponsorshipRemoved(entry: SponsoredType)
    | LiquidityPoolCreated | LiquidityPoolRemoved | LiquidityPoolTrade
    | AccountCredited | AccountDebited | ContractCredited | ContractDebited
    | Trade | OfferUpdated | OfferRemoved

  /** The entry types of sponsoringEffectsTable. */
  datatype SponsoredType = AccountEntry | TrustlineEntry | DataEntry | ClaimableBalanceEntry

  /** A detail value: text, a number, or an object of texts. */
  datatype Value = S(s: string) | N(n: int) | M(fields: map<string, string>)

  type Details = map<string, Value>

  datatype EffectRecord = EffectRecord(address: string, effectType: EffectType, details: Details)

  datatype Asset = Native | Credit(assetType: string, code: string, issuer: string)

  /** The keys addAssetDetails sets. */
  function AssetDetails(a: Asset, prefix: string): Details {
    match a
    case Native => map[prefix + "asset_type" := S("native")]
    case Credit(t, code, issuer) =>
      map[prefix + "asset_type" := S(t), prefix + "asset_code" := S(code), prefix + "asset_issuer" := S(issuer)]
  }

  // Signer changes.

  function SignerEffect(source: string, t: EffectType, key: string, weight: int): EffectRecord {
    EffectRecord(source, t, if t.SignerRemoved? then map["public_key" := S(key)]
                            else map["public_key" := S(key), "weight" := N(weight)])
  }

  /** The record, if any, for a signer held before. */
  function HeldSigner(source: string, before: map<string, int>, after: map<string, int>, key: string): seq<EffectRecord>
    requires key in before
  {
    if key !in after then [SignerEffect(source, SignerRemoved, key, 0)]
    else if after[key] != before[key] then [SignerEffect(source, SignerUpdated, key, after[key])]
    else []
  }

  /** The record, if any, for a signer held after. */
  function NewSigner(source: string, before: map<string, int>, after: map<string, int>, key: string): seq<EffectRecord>
    requires key in after
  {
    if key in before then [] else [SignerEffect(source, SignerCreated, key, after[key])]
  }

  ghost function HeldSigners(source: string, before: map<string, int>, after: map<string, int>, keys: seq<string>): seq<EffectRecord>
    requires forall k | k in keys :: k in before
  {
    if keys == [] then [] else
      HeldSigners(source, before, after, keys[..|keys| - 1]) + HeldSigner(source, before, after, keys[|keys| - 1])
  }

  ghost function NewSigners(source: string, before: map<string, int>, after: map<string, int>, keys: seq<string>): seq<EffectRecord>
    requires forall k | k in keys :: k in after
  {
    if keys == [] then [] else
      NewSigners(source, before, after, keys[..|keys| - 1]) + NewSigner(source, before, after, keys[|keys| - 1])
  }

  lemma HeldSignersStep(source: string, before: map<string, int>, after: map<string, int>, keys: seq<string>, i: nat)
    requires i < |keys| && forall k | k in keys :: k in before
    ensures HeldSigners(source, before, after, keys[..i + 1]) ==
            HeldSigners(source, before, after, keys[..i]) + HeldSigner(source, before, after, keys[i])
  {
    assert keys[..i + 1][..i] == keys[..i];
  }

  lemma HeldSignersSnoc(source: string, before: map<string, int>, after: map<string, int>, front: seq<string>, key: string)
    requires key in before && forall k | k in front :: k in before
    ensures HeldSigners(source, before, after, front + [key]) ==
            HeldSigners(source, before, after, front) + HeldSigner(source, before, after, key)
  {
    assert (front + [key])[..|front|] == front;
  }

  lemma NewSignersStep(source: string, before: map<string, int>, after: map<string, int>, keys: seq<string>, i: nat)
    requires i < |keys| && forall k | k in keys :: k in after
    ensures NewSigners(source, before, after, keys[..i + 1]) ==
            NewSigners(source, before, after, keys[..i]) + NewSigner(source, before, after, keys[i])
  {
    assert keys[..i + 1][..i] == keys[..i];
  }

  lemma NewSignersSnoc(source: string, before: map<string, int>, after: map<string, int>, front: seq<string>, key: string)
    requires key in after && forall k | k in front :: k in after
    ensures NewSigners(source, before, after, front + [key]) ==
            NewSigners(source, before, after, front) + NewSigner(source, before, after, key)
  {
    assert (front + [key])[..|front|] == front;
  }

  /** The records of one account change: signers held before in key order, then new ones in key order. */
  ghost function SignerDiff(source: string, before: map<string, int>, after: map<string, int>): seq<EffectRecord> {
    HeldSigners(source, before, after, FnName.SortedKeysOf(before)) +
    NewSigners(source, before, after, FnName.SortedKeysOf(after))
  }

  /** What a signer record does to a signer map. */
  ghost function ApplySigner(m: map<string, int>, r: EffectRecord): map<string, int> {
    if "public_key" !in r.details || !r.details["public_key"].S? then m else
      var key := r.details["public_key"].s;
      if r.effectType.SignerRemoved? then m - {key}
      else if "weight" in r.details && r.details["weight"].N? then m[key := r.details["weight"].n]
      else m
  }

  ghost function ApplySigners(m: map<string, int>, records: seq<EffectRecord>): map<string, int> {
    if records == [] then m else
      ApplySigner(ApplySigners(m, records[..|records| - 1]), records[|records| - 1])
  }

  lemma {:induction false} ApplySignersConcat(m: map<string, int>, a: seq<EffectRecord>, b: seq<EffectRecord>)
    ensures ApplySigners(m, a + b) == ApplySigners(ApplySigners(m, a), b)
  {
    if b == [] {
      assert a + b == a;
    } else {
      assert (a + b)[..|a + b| - 1] == a + b[..|b| - 1];
      ApplySignersConcat(m, a, b[..|b| - 1]);
    }
  }

  lemma ApplyOne(m: map<string, int>, r: EffectRecord)
    ensures ApplySigners(m, [r]) == ApplySigner(m, r)
  {
    assert [r][..0] == [];
  }

  /** Part way: the keys processed are as after, the others as before. */
  ghost function Mixed(before: map<string, int>, after: map<string, int>, keys: seq<string>): map<string, int> {
    map k | k in before && (k in keys ==> k in after) :: if k in keys then after[k] else before[k]
  }

  lemma HeldSignerApplies(source: string, before: map<string, int>, after: map<string, int>, front: seq<string>, key: string)
    requires key in before && key !in front
    ensures ApplySigners(Mixed(before, after, front), HeldSigner(source, before, after, key)) ==
            Mixed(before, after, front + [key])
  {
    MixedStep(before, after, front, key);
    hide Mixed;
    var r := HeldSigner(source, before, after, key);
    if r != [] {
      assert r == [r[0]];
      ApplyOne(Mixed(before, after, front), r[0]);
    }
  }

  lemma {:induction false} HeldSignersApply(source: string, before: map<string, int>, after: map<string, int>, keys: seq<string>)
    requires forall k | k in keys :: k in before
    requires forall i, j | 0 <= i < j < |keys| :: keys[i] != keys[j]
    ensures ApplySigners(before, HeldSigners(source, before, after, keys)) == Mixed(before, after, keys)
  {
    if keys == [] {
      assert Mixed(before, after, keys) == before;
    } else {
      var front, key := keys[..|keys| - 1], keys[|keys| - 1];
      assert keys == front + [key];
      assert key in keys && key !in front;
      HeldSignersApply(source, before, after, front);
      HeldSignersSnoc(source, before, after, front, key);
      hide ApplySigners, Mixed, HeldSigner, HeldSigners;
      ApplySignersConcat(before, HeldSigners(source, before, after, front), HeldSigner(source, before, after, key));
      HeldSignerApplies(source, before, after, front, key);
    }
  }

  lemma MixedStep(before: map<string, int>, after: map<string, int>, front: seq<string>, key: string)
    requires key in before && key !in front
    ensures Mixed(before, after, front + [key]) ==
            if key in after then Mixed(before, after, front)[key := after[key]] else Mixed(before, after, front) - {key}
    ensures key in Mixed(before, after, front) && Mixed(before, after, front)[key] == before[key]
  {
  }

  ghost function Grown(before: map<string, int>, after: map<string, int>, keys: seq<string>): map<string, int> {
    map k | k in after && (k in before || k in keys) :: after[k]
  }

  lemma NewSignerApplies(source: string, before: map<string, int>, after: map<string, int>, front: seq<string>, key: string)
    requires key in after
    ensures ApplySigners(Grown(before, after, front), NewSigner(source, before, after, key)) ==
            Grown(before, after, front + [key])
  {
    var r := NewSigner(source, before, after, key);
    if r != [] {
      assert r == [r[0]];
      ApplyOne(Grown(before, after, front), r[0]);
    }
  }

  lemma {:induction false} NewSignersApply(source: string, before: map<string, int>, after: map<string, int>, keys: seq<string>)
    requires forall k | k in keys :: k in after
    ensures ApplySigners(Grown(before, after, []), NewSigners(source, before, after, keys)) == Grown(before, after, keys)
  {
    if keys != [] {
      var front, key := keys[..|keys| - 1], keys[|keys| - 1];
      assert keys == front + [key];
      assert key in keys;
      NewSignersApply(source, before, after, front);
      NewSignersSnoc(source, before, after, front, key);
      hide ApplySigners, Grown, NewSigner, NewSigners;
      ApplySignersConcat(Grown(before, after, []), NewSigners(source, before, after, front), NewSigner(source, before, after, key));
      NewSignerApplies(source, before, after, front, key);
    }
  }

  /** The diff is a patch: applied in order to the signers before, it gives the signers after. */
  lemma SignerDiffIsPatch(source: string, before: map<string, int>, after: map<string, int>)
    ensures ApplySigners(before, SignerDiff(source, before, after)) == after
  {
    hide HeldSigners, NewSigners, ApplySigners;
    var held, new_ := FnName.SortedKeysOf(before), FnName.SortedKeysOf(after);
    HeldSignersApply(source, before, after, held);
    assert Mixed(before, after, held) == Grown(before, after, []);
    NewSignersApply(source, before, after, new_);
    assert Grown(before, after, new_) == after;
    ApplySignersConcat(before, HeldSigners(source, before, after, held), NewSigners(source, before, after, new_));
  }

  /** The address a signer record is about. */
  ghost function SignerOf(r: EffectRecord): string {
    if "public_key" in r.details && r.details["public_key"].S? then r.details["public_key"].s else ""
  }

  lemma SignerRecordKeys(source: string, before: map<string, int>, after: map<string, int>, key: string)
    ensures key in before ==> var r := HeldSigner(source, before, after, key);
                              |r| <= 1 && forall x | x in r :: SignerOf(x) == key
    ensures key in after ==> var r := NewSigner(source, before, after, key);
                             |r| <= 1 && forall x | x in r :: SignerOf(x) == key && key !in before
  {
  }

  /** No two records are about one signer. */
  ghost predicate DistinctSigners(rs: seq<EffectRecord>) {
    forall i, j | 0 <= i < j < |rs| :: SignerOf(rs[i]) != SignerOf(rs[j])
  }

  lemma DistinctSignersConcat(a: seq<EffectRecord>, b: seq<EffectRecord>)
    requires DistinctSigners(a) && DistinctSigners(b)
    requires forall x, y | x in a && y in b :: SignerOf(x) != SignerOf(y)
    ensures DistinctSigners(a + b)
  {
    hide SignerOf;
    forall i, j | 0 <= i < j < |a + b| ensures SignerOf((a + b)[i]) != SignerOf((a + b)[j]) {
      if i < |a| <= j {
        assert a[i] in a && b[j - |a|] in b;
      }
    }
  }

  lemma {:induction false} HeldSignersKeys(source: string, before: map<string, int>, after: map<string, int>, keys: seq<string>)
    requires forall k | k in keys :: k in before
    requires forall i, j | 0 <= i < j < |keys| :: keys[i] != keys[j]
    ensures forall r | r in HeldSigners(source, before, after, keys) :: SignerOf(r) in keys
    ensures DistinctSigners(HeldSigners(source, before, after, keys))
  {
    if keys != [] {
      hide SignerOf, HeldSigner, DistinctSigners;
      var front, key := keys[..|keys| - 1], keys[|keys| - 1];
      HeldSignersKeys(source, before, after, front);
      assert keys == front + [key] && key in keys && key !in front;
      SignerRecordKeys(source, before, after, key);
      FewSignersDistinct(HeldSigner(source, before, after, key));
      DistinctSignersConcat(HeldSigners(source, before, after, front), HeldSigner(source, before, after, key));
    }
  }

  lemma FewSignersDistinct(rs: seq<EffectRecord>)
    requires |rs| <= 1
    ensures DistinctSigners(rs)
  {
  }

  lemma {:induction false} NewSignersKeys(source: string, before: map<string, int>, after: map<string, int>, keys: seq<string>)
    requires forall k | k in keys :: k in after
    requires forall i, j | 0 <= i < j < |keys| :: keys[i] != keys[j]
    ensures forall r | r in NewSigners(source, before, after, keys) :: SignerOf(r) in keys && SignerOf(r) !in before
    ensures DistinctSigners(NewSigners(source, before, after, keys))
  {
    if keys != [] {
      hide SignerOf, NewSigner, DistinctSigners;
      var front, key := keys[..|keys| - 1], keys[|keys| - 1];
      NewSignersKeys(source, before, after, front);
      assert keys == front + [key] && key in keys && key !in front;
      SignerRecordKeys(source, before, after, key);
      FewSignersDistinct(NewSigner(source, before, after, key));
      DistinctSignersConcat(NewSigners(source, before, after, front), NewSigner(source, before, after, key));
    }
  }

  /** Each address gets at most one record, and there is none exactly when nothing changed. */
  lemma SignerDiffIsMinimal(source: string, before: map<string, int>, after: map<string, int>)
    ensures DistinctSigners(SignerDiff(source, before, after))
    ensures SignerDiff(source, before, after) == [] <==> before == after
  {
    hide HeldSigners, NewSigners, SignerOf, DistinctSigners;
    var held, new_ := FnName.SortedKeysOf(before), FnName.SortedKeysOf(after);
    HeldSignersKeys(source, before, after, held);
    NewSignersKeys(source, before, after, new_);
    DistinctSignersConcat(HeldSigners(source, before, after, held), NewSigners(source, before, after, new_));
    if before == after {
      NothingHeld(source, before, held);
      NothingNew(source, before, new_);
    } else if SignerDiff(source, before, after) == [] {
      SignerDiffIsPatch(source, before, after);
      NoSignersApply(before);
    }
  }

  lemma NoSignersApply(m: map<string, int>)
    ensures ApplySigners(m, []) == m
  {
  }

  lemma {:induction false} NothingHeld(source: string, m: map<string, int>, keys: seq<string>)
    requires forall k | k in keys :: k in m
    ensures HeldSigners(source, m, m, keys) == []
  {
    if keys != [] {
      NothingHeld(source, m, keys[..|keys| - 1]);
    }
  }

  lemma {:induction false} NothingNew(source: string, m: map<string, int>, keys: seq<string>)
    requires forall k | k in keys :: k in m
    ensures NewSigners(source, m, m, keys) == []
  {
    if keys != [] {
      NothingNew(source, m, keys[..|keys| - 1]);
    }
  }

  /** Which record a signer gets: removed, updated with the new weight, or created with its weight. */
  ghost predicate SignerRecord(r: EffectRecord, source: string, before: map<string, int>, after: map<string, int>, key: string) {
    && r.address == source
    && if key in before && key !in after then r.effectType == SignerRemoved && r.details == map["public_key" := S(key)]
       else if key in before && key in after then
         before[key] != after[key] && r.effectType == SignerUpdated &&
         r.details == map["public_key" := S(key), "weight" := N(after[key])]
       else
         key in after && r.effectType == SignerCreated &&
         r.details == map["public_key" := S(key), "weight" := N(after[key])]
  }

  /** The records of keys taken in ascending order. */
  ghost predicate RecordsInOrder(rs: seq<EffectRecord>) {
    forall i, j | 0 <= i < j < |rs| :: FnName.KeyBefore(SignerOf(rs[i]), SignerOf(rs[j]))
  }

  ghost predicate KeysAscend(keys: seq<string>) {
    forall i, j | 0 <= i < j < |keys| :: FnName.KeyBefore(keys[i], keys[j])
  }

  lemma InOrderSnoc(rs: seq<EffectRecord>, more: seq<EffectRecord>, key: string)
    requires RecordsInOrder(rs) && |more| <= 1 && (forall r | r in more :: SignerOf(r) == key)
    requires forall r | r in rs :: FnName.KeyBefore(SignerOf(r), key)
    ensures RecordsInOrder(rs + more)
  {
    hide SignerOf, FnName.KeyBefore;
    forall i, j | 0 <= i < j < |rs + more| ensures FnName.KeyBefore(SignerOf((rs + more)[i]), SignerOf((rs + more)[j])) {
      if j == |rs| {
        assert more[0] in more && rs[i] in rs;
      }
    }
  }

  lemma HeldRecordExactly(source: string, before: map<string, int>, after: map<string, int>, key: string)
    requires key in before
    ensures forall r | r in HeldSigner(source, before, after, key) :: SignerRecord(r, source, before, after, key)
    ensures HeldSigner(source, before, after, key) == [] <==> key in after && after[key] == before[key]
    ensures forall r | r in HeldSigner(source, before, after, key) :: !r.effectType.SignerCreated?
  {
  }

  lemma NewRecordExactly(source: string, before: map<string, int>, after: map<string, int>, key: string)
    requires key in after
    ensures forall r | r in NewSigner(source, before, after, key) :: SignerRecord(r, source, before, after, key)
    ensures NewSigner(source, before, after, key) == [] <==> key in before
    ensures forall r | r in NewSigner(source, before, after, key) :: r.effectType.SignerCreated?
  {
  }

  lemma {:induction false} HeldSignersExactly(source: string, before: map<string, int>, after: map<string, int>, keys: seq<string>)
    requires (forall k | k in keys :: k in before) && KeysAscend(keys)
    ensures var rs := HeldSigners(source, before, after, keys);
            && (forall r | r in rs :: SignerOf(r) in keys && SignerRecord(r, source, before, after, SignerOf(r)) && !r.effectType.SignerCreated?)
            && (forall k | k in keys && !(k in after && after[k] == before[k]) :: exists r :: r in rs && SignerOf(r) == k)
            && RecordsInOrder(rs)
  {
    if keys != [] {
      var front, key := keys[..|keys| - 1], keys[|keys| - 1];
      assert keys == front + [key];
      HeldSignersExactly(source, before, after, front);
      HeldSignersSnoc(source, before, after, front, key);
      hide SignerOf, SignerRecord, HeldSigner, HeldSigners, RecordsInOrder, FnName.KeyBefore;
      var rs, more := HeldSigners(source, before, after, front), HeldSigner(source, before, after, key);
      SignerRecordKeys(source, before, after, key);
      HeldRecordExactly(source, before, after, key);
      InOrderSnoc(rs, more, key);
      forall k | k in keys && !(k in after && after[k] == before[k]) ensures exists r :: r in rs + more && SignerOf(r) == k {
        if k == key {
          assert more[0] in more;
          assert more[0] in rs + more;
        } else {
          var r :| r in rs && SignerOf(r) == k;
          assert r in rs + more;
        }
      }
    }
  }

  lemma {:induction false} NewSignersExactly(source: string, before: map<string, int>, after: map<string, int>, keys: seq<string>)
    requires (forall k | k in keys :: k in after) && KeysAscend(keys)
    ensures var rs := NewSigners(source, before, after, keys);
            && (forall r | r in rs :: SignerOf(r) in keys && SignerRecord(r, source, before, after, SignerOf(r)) && r.effectType.SignerCreated?)
            && (forall k | k in keys && k !in before :: exists r :: r in rs && SignerOf(r) == k)
            && RecordsInOrder(rs)
  {
    if keys != [] {
      var front, key := keys[..|keys| - 1], keys[|keys| - 1];
      assert keys == front + [key];
      NewSignersExactly(source, before, after, front);
      NewSignersSnoc(source, before, after, front, key);
      hide SignerOf, SignerRecord, NewSigner, NewSigners, RecordsInOrder, FnName.KeyBefore;
      var rs, more := NewSigners(source, before, after, front), NewSigner(source, before, after, key);
      SignerRecordKeys(source, before, after, key);
      NewRecordExactly(source, before, after, key);
      InOrderSnoc(rs, more, key);
      forall k | k in keys && k !in before ensures exists r :: r in rs + more && SignerOf(r) == k {
        if k == key {
          assert more[0] in more;
          assert more[0] in rs + more;
        } else {
          var r :| r in rs && SignerOf(r) == k;
          assert r in rs + more;
        }
      }
    }
  }

  lemma SortedKeysRise(m: map<string, int>)
    ensures KeysAscend(FnName.SortedKeysOf(m))
  {
    var keys := FnName.SortedKeysOf(m);
    forall i, j | 0 <= i < j < |keys| ensures FnName.KeyBefore(keys[i], keys[j]) {
      FnName.SortedKeysAscend(m, i, j);
    }
  }

  /**
   The records of a change: exactly the signers removed, reweighted or added get one, each stating
   which and its new weight; first those held before, then the new ones, each group in key order.
   */
  lemma SignerDiffExactly(source: string, before: map<string, int>, after: map<string, int>) returns (n: nat)
    ensures var rs := SignerDiff(source, before, after);
            && (forall r | r in rs :: SignerRecord(r, source, before, after, SignerOf(r)))
            && (forall k | k in before && !(k in after && after[k] == before[k]) :: exists r :: r in rs && SignerOf(r) == k)
            && (forall k | k in after && k !in before :: exists r :: r in rs && SignerOf(r) == k)
            && n <= |rs| && RecordsInOrder(rs[..n]) && RecordsInOrder(rs[n..])
            && forall i | 0 <= i < |rs| :: rs[i].effectType.SignerCreated? <==> i >= n
  {
    hide HeldSigners, NewSigners, SignerRecord, SignerOf, RecordsInOrder;
    SortedKeysRise(before);
    SortedKeysRise(after);
    HeldSignersExactly(source, before, after, FnName.SortedKeysOf(before));
    NewSignersExactly(source, before, after, FnName.SortedKeysOf(after));
    var held: seq<EffectRecord> := HeldSigners(source, before, after, FnName.SortedKeysOf(before));
    var new_: seq<EffectRecord> := NewSigners(source, before, after, FnName.SortedKeysOf(after));
    n := |held|;
    assert (held + new_)[..n] == held && (held + new_)[n..] == new_;
    assert forall r :: r in held + new_ <==> r in held || r in new_;
    forall i | 0 <= i < |held + new_| ensures (held + new_)[i].effectType.SignerCreated? <==> i >= n {
      assert i < n ==> held[i] in held;
      assert i >= n ==> new_[i - n] in new_;
    }
  }

  /** A ledger change as the signer part reads it: the signer summaries of an account before and after. */
  datatype SignerChange = SignerChange(ofAccount: bool, pre: Option<map<string, int>>, post: Option<map<string, int>>)

  ghost function ChangeSigners(source: string, c: SignerChange): seq<EffectRecord> {
    if c.ofAccount && c.pre.Some? && c.post.Some? then SignerDiff(source, c.pre.value, c.post.value) else []
  }

  ghost function SignerRecords(source: string, changes: seq<SignerChange>): seq<EffectRecord> {
    if changes == [] then [] else
      SignerRecords(source, changes[..|changes| - 1]) + ChangeSigners(source, changes[|changes| - 1])
  }

  /** Changes to one account, each starting where the previous ended. */
  ghost predicate SignerRun(changes: seq<SignerChange>) {
    && (forall c | c in changes :: c.ofAccount && c.pre.Some? && c.post.Some?)
    && forall i | 0 < i < |changes| :: changes[i].pre == changes[i - 1].post
  }

  /** Over any run of changes to one account, all the records applied in order give its final signers. */
  lemma {:induction false} SignerRunIsPatch(source: string, changes: seq<SignerChange>)
    requires changes != [] && SignerRun(changes)
    ensures ApplySigners(changes[0].pre.value, SignerRecords(source, changes)) == changes[|changes| - 1].post.value
  {
    hide SignerDiff, ApplySigners;
    var n := |changes| - 1;
    var front, c, start := changes[..n], changes[n], changes[0].pre.value;
    assert c in changes;
    var before := SignerRecords(source, front);
    assert ApplySigners(start, before) == c.pre.value by {
      if front != [] {
        assert forall x | x in front :: x in changes;
        SignerRunIsPatch(source, front);
        assert c.pre == changes[n - 1].post;
      } else {
        NoSignersApply(start);
      }
    }
    SignerDiffIsPatch(source, c.pre.value, c.post.value);
    ApplySignersConcat(start, before, SignerDiff(source, c.pre.value, c.post.value));
  }

  // Sponsorship and pool lifecycle.

  /** What a change says of the entry it touches. */
  datatype EntryType = Sponsored(sponsoredType: SponsoredType) | LiquidityPoolEntry | OtherEntry

  /** `owner`: the account of an account or trustline entry; `tag`: trustline asset, data name, balance id or pool id. */
  datatype Entry = Entry(sponsor: Option<string>, owner: string, tag: string)

  datatype Change = Change(entryType: EntryType, pre: Option<Entry>, post: Option<Entry>)

  function SponsorOf(e: Option<Entry>): Option<string> {
    if e.Some? then e.value.sponsor else None
  }

  /** The record for a change of sponsor. */
  function SponsorshipRecords(source: string, c: Change): seq<EffectRecord> {
    if !c.entryType.Sponsored? || SponsorOf(c.pre) == SponsorOf(c.post) then [] else
      var t := c.entryType.sponsoredType;
      var entry := if c.post.Some? then c.post.value else c.pre.value;
      var sponsors: Details :=
        match (SponsorOf(c.pre), SponsorOf(c.post))
        case (None, Some(p)) => map["sponsor" := S(p)]
        case (Some(f), None) => map["former_sponsor" := S(f)]
        case (Some(f), Some(p)) => map["new_sponsor" := S(p), "former_sponsor" := S(f)];
      var effectType := if SponsorOf(c.pre).None? then SponsorshipCreated(t)
                        else if SponsorOf(c.post).None? then SponsorshipRemoved(t) else SponsorshipUpdated(t);
      match t
      case AccountEntry => [EffectRecord(entry.owner, effectType, sponsors)]
      case TrustlineEntry => [EffectRecord(entry.owner, effectType, sponsors)]
      case DataEntry => [EffectRecord(source, effectType, sponsors["data_name" := S(entry.tag)])]
      case ClaimableBalanceEntry => [EffectRecord(source, effectType, sponsors["balance_id" := S(entry.tag)])]
  }

  function LifecycleRecords(source: string, c: Change): seq<EffectRecord> {
    if !c.entryType.LiquidityPoolEntry? || c.pre.None? == c.post.None? then []
    else if c.pre.None? then [EffectRecord(source, LiquidityPoolCreated, map["liquidity_pool" := S(c.post.value.tag)])]
    else [EffectRecord(source, LiquidityPoolRemoved, map["liquidity_pool_id" := S(c.pre.value.tag)])]
  }

  ghost function ChangeRecords(source: string, changes: seq<Change>): seq<EffectRecord> {
    if changes == [] then [] else
      var c := changes[|changes| - 1];
      ChangeRecords(source, changes[..|changes| - 1]) + SponsorshipRecords(source, c) + LifecycleRecords(source, c)
  }

  /** A run of changes to one entry: one type, each starting where the previous ended. */
  ghost predicate ChainedRun(t: EntryType, changes: seq<Change>) {
    && (forall i | 0 <= i < |changes| :: changes[i].entryType == t)
    && forall i | 0 < i < |changes| :: changes[i].pre == changes[i - 1].post
  }

  ghost function Detail(r: EffectRecord, key: string): Option<string> {
    if key in r.details && r.details[key].S? then Some(r.details[key].s) else None
  }

  /** Applies a sponsorship record; None when its former sponsor is not the one it is applied to. */
  ghost function ReplaySponsor(state: Option<string>, r: EffectRecord): Option<Option<string>> {
    match r.effectType
    case SponsorshipCreated(_) => if state.None? then Some(Detail(r, "sponsor")) else None
    case SponsorshipRemoved(_) => if state.Some? && Detail(r, "former_sponsor") == state then Some(None) else None
    case SponsorshipUpdated(_) => if state.Some? && Detail(r, "former_sponsor") == state then Some(Detail(r, "new_sponsor")) else None
    case _ => Some(state)
  }

  ghost function ReplaySponsors(state: Option<string>, records: seq<EffectRecord>): Option<Option<string>> {
    if records == [] then Some(state) else
      var s := ReplaySponsors(state, records[..|records| - 1]);
      if s.None? then None else ReplaySponsor(s.value, records[|records| - 1])
  }

  lemma ReplayTwo(state: Option<string>, front: seq<EffectRecord>, a: seq<EffectRecord>, b: seq<EffectRecord>)
    requires |a| <= 1 && |b| <= 1
    ensures var s := ReplaySponsors(state, front);
            var s1 := if s.Some? && a != [] then ReplaySponsor(s.value, a[0]) else s;
            var s2 := if s1.Some? && b != [] then ReplaySponsor(s1.value, b[0]) else s1;
            ReplaySponsors(state, front + a + b) == s2
  {
    assert a != [] ==> (front + a)[..|front|] == front;
    assert b != [] ==> (front + a + b)[..|front + a|] == front + a;
    assert a == [] ==> front + a == front;
    assert b == [] ==> front + a + b == front + a;
  }

  /**
   A change has a sponsorship record exactly when it is of a table entry and the sponsor differs; an
   account's or trustline's under its own account, a data entry's or balance's under the source.
   */
  lemma SponsorshipRecordsExactly(source: string, c: Change)
    ensures var rs := SponsorshipRecords(source, c);
            && |rs| == (if c.entryType.Sponsored? && SponsorOf(c.pre) != SponsorOf(c.post) then 1 else 0)
            && forall r | r in rs :: SponsorshipStated(r, source, c)
  {
  }

  ghost predicate SponsorshipStated(r: EffectRecord, source: string, c: Change)
    requires c.entryType.Sponsored?
  {
    var t, e, f, p := c.entryType.sponsoredType, if c.post.Some? then c.post else c.pre, SponsorOf(c.pre), SponsorOf(c.post);
    && e.Some?
    && r.address == (if t.AccountEntry? || t.TrustlineEntry? then e.value.owner else source)
    && r.effectType == (if f.None? then SponsorshipCreated(t) else if p.None? then SponsorshipRemoved(t) else SponsorshipUpdated(t))
    && Detail(r, "data_name") == (if t.DataEntry? then Some(e.value.tag) else None)
    && Detail(r, "balance_id") == (if t.ClaimableBalanceEntry? then Some(e.value.tag) else None)
    && Detail(r, "sponsor") == (if f.None? then p else None)
    && Detail(r, "former_sponsor") == f
    && Detail(r, "new_sponsor") == (if f.Some? then p else None)
  }

  /** A pool's change has a lifecycle record exactly when the pool appears or disappears, under the source, with its id. */
  lemma LifecycleRecordsExactly(source: string, c: Change)
    ensures var rs := LifecycleRecords(source, c);
            && |rs| == (if c.entryType == LiquidityPoolEntry && c.pre.Some? != c.post.Some? then 1 else 0)
            && forall r | r in rs ::
                 && r.address == source
                 && (if c.post.Some? then r.effectType == LiquidityPoolCreated && Detail(r, "liquidity_pool") == Some(c.post.value.tag)
                     else c.pre.Some? && r.effectType == LiquidityPoolRemoved && Detail(r, "liquidity_pool_id") == Some(c.pre.value.tag))
  {
  }

  /** One change's records move the replay from the change's sponsor before to the one after. */
  lemma SponsorshipStep(source: string, c: Change)
    requires c.entryType.Sponsored?
    ensures var rs := SponsorshipRecords(source, c);
            LifecycleRecords(source, c) == [] && |rs| <= 1 &&
            (if rs == [] then SponsorOf(c.pre) == SponsorOf(c.post)
             else ReplaySponsor(SponsorOf(c.pre), rs[0]) == Some(SponsorOf(c.post)))
  {
  }

  /** Replaying a run's records from its initial sponsor never mismatches and ends at the final sponsor. */
  lemma {:induction false} SponsorshipReplay(source: string, t: SponsoredType, changes: seq<Change>)
    requires changes != [] && ChainedRun(Sponsored(t), changes)
    ensures ReplaySponsors(SponsorOf(changes[0].pre), ChangeRecords(source, changes)) ==
            Some(SponsorOf(changes[|changes| - 1].post))
  {
    var front, c := changes[..|changes| - 1], changes[|changes| - 1];
    var start := SponsorOf(changes[0].pre);
    var before := ChangeRecords(source, front);
    assert ReplaySponsors(start, before) == Some(SponsorOf(c.pre)) by {
      if front != [] {
        SponsorshipReplay(source, t, front);
        assert c.pre == changes[|changes| - 2].post;
      }
    }
    SponsorshipStep(source, c);
    hide SponsorshipRecords, LifecycleRecords, ReplaySponsor, ReplaySponsors, SponsorOf;
    ReplayTwo(start, before, SponsorshipRecords(source, c), LifecycleRecords(source, c));
  }

  lemma LifecycleNeutral(source: string, c: Change, state: Option<string>)
    requires !c.entryType.Sponsored?
    ensures var rs := LifecycleRecords(source, c);
            SponsorshipRecords(source, c) == [] && |rs| <= 1 && (rs != [] ==> ReplaySponsor(state, rs[0]) == Some(state))
  {
  }

  lemma {:induction false} UntrackedEmitsNoSponsorship(source: string, t: EntryType, changes: seq<Change>, state: Option<string>)
    requires !t.Sponsored? && ChainedRun(t, changes)
    ensures ReplaySponsors(state, ChangeRecords(source, changes)) == Some(state)
  {
    if changes != [] {
      var front, c := changes[..|changes| - 1], changes[|changes| - 1];
      UntrackedEmitsNoSponsorship(source, t, front, state);
      LifecycleNeutral(source, c, state);
      hide SponsorshipRecords, LifecycleRecords, ReplaySponsor, ReplaySponsors;
      ReplayTwo(state, ChangeRecords(source, front), SponsorshipRecords(source, c), LifecycleRecords(source, c));
    }
  }

  /** For every entry type: the replay ends right exactly when the type is in the table or the sponsor ended where it began. */
  lemma SponsorshipReplayExactly(source: string, t: EntryType, changes: seq<Change>)
    requires changes != [] && ChainedRun(t, changes)
    ensures var first, last := SponsorOf(changes[0].pre), SponsorOf(changes[|changes| - 1].post);
            ReplaySponsors(first, ChangeRecords(source, changes)) == Some(last) <==> t.Sponsored? || first == last
  {
    if t.Sponsored? {
      SponsorshipReplay(source, t.sponsoredType, changes);
    } else {
      UntrackedEmitsNoSponsorship(source, t, changes, SponsorOf(changes[0].pre));
    }
  }

  /** A pool's records, read as created and removed in turn, take its presence from start to end. */
  ghost predicate Alternates(present: bool, records: seq<EffectRecord>, end: bool)
    decreases |records|
  {
    if records == [] then present == end else
      var r := records[|records| - 1];
      if end then r.effectType.LiquidityPoolCreated? && Alternates(present, records[..|records| - 1], false)
      else r.effectType.LiquidityPoolRemoved? && Alternates(present, records[..|records| - 1], true)
  }

  /** Created and removed strictly alternate, the first matching the pool's initial absence or presence. */
  lemma {:induction false} LifecycleAlternates(source: string, changes: seq<Change>)
    requires changes != [] && ChainedRun(LiquidityPoolEntry, changes)
    ensures Alternates(changes[0].pre.Some?, ChangeRecords(source, changes), changes[|changes| - 1].post.Some?)
  {
    var front, c := changes[..|changes| - 1], changes[|changes| - 1];
    var start := changes[0].pre.Some?;
    var before := ChangeRecords(source, front);
    assert Alternates(start, before, c.pre.Some?) by {
      if front != [] {
        LifecycleAlternates(source, front);
        assert c.pre == changes[|changes| - 2].post;
      }
    }
    hide Alternates, LifecycleRecords;
    assert SponsorshipRecords(source, c) == [] && before + [] == before;
    AlternatesStep(source, start, before, c);
  }

  lemma AlternatesStep(source: string, start: bool, before: seq<EffectRecord>, c: Change)
    requires c.entryType.LiquidityPoolEntry? && Alternates(start, before, c.pre.Some?)
    ensures Alternates(start, before + LifecycleRecords(source, c), c.post.Some?)
  {
    var more := LifecycleRecords(source, c);
    if more != [] {
      assert (before + more)[..|before|] == before;
    } else {
      assert before + more == before;
    }
  }

  /** In particular no two neighbouring lifecycle records are alike. */
  lemma {:induction false} AlternatesDiffer(present: bool, records: seq<EffectRecord>, end: bool, i: nat)
    requires Alternates(present, records, end) && 0 < i < |records|
    ensures records[i].effectType != records[i - 1].effectType
    decreases |records|
  {
    if i < |records| - 1 {
      AlternatesDiffer(present, records[..|records| - 1], !end, i);
    }
  }

  // An operation's changes mix entries; how far its records tell them apart.

  /** An entry records are about. */
  datatype Subject =
    | AccountSubject(owner: string)
    | TrustlineSubject(owner: string, asset: string)
    | DataSubject(owner: string, name: string)
    | BalanceSubject(id: string)
    | PoolSubject(id: string)

  /** The change is one of the subject's. */
  predicate Concerns(c: Change, s: Subject) {
    (c.post.Some? || c.pre.Some?) &&
    var entry := if c.post.Some? then c.post.value else c.pre.value;
    match s
    case AccountSubject(owner) => c.entryType == Sponsored(AccountEntry) && entry.owner == owner
    case TrustlineSubject(owner, asset) => c.entryType == Sponsored(TrustlineEntry) && entry.owner == owner && entry.tag == asset
    case DataSubject(owner, name) => c.entryType == Sponsored(DataEntry) && entry.owner == owner && entry.tag == name
    case BalanceSubject(id) => c.entryType == Sponsored(ClaimableBalanceEntry) && entry.tag == id
    case PoolSubject(id) => c.entryType == LiquidityPoolEntry && entry.tag == id
  }

  /**
   A change of sponsor of another entry whose records look like the subject's: another trustline of
   the same account, or another account's data entry of the same name.
   */
  predicate Rival(c: Change, s: Subject) {
    (c.post.Some? || c.pre.Some?) && SponsorOf(c.pre) != SponsorOf(c.post) &&
    var entry := if c.post.Some? then c.post.value else c.pre.value;
    match s
    case TrustlineSubject(owner, asset) => c.entryType == Sponsored(TrustlineEntry) && entry.owner == owner && entry.tag != asset
    case DataSubject(owner, name) => c.entryType == Sponsored(DataEntry) && entry.owner != owner && entry.tag == name
    case _ => false
  }

  predicate IsSponsorshipOf(t: EffectType, e: SponsoredType) {
    t == SponsorshipCreated(e) || t == SponsorshipUpdated(e) || t == SponsorshipRemoved(e)
  }

  /** The record, read on its own, can be about the subject. */
  ghost predicate NamesSubject(r: EffectRecord, s: Subject) {
    match s
    case AccountSubject(owner) => IsSponsorshipOf(r.effectType, AccountEntry) && r.address == owner
    case TrustlineSubject(owner, _) => IsSponsorshipOf(r.effectType, TrustlineEntry) && r.address == owner
    case DataSubject(_, name) => IsSponsorshipOf(r.effectType, DataEntry) && Detail(r, "data_name") == Some(name)
    case BalanceSubject(id) => IsSponsorshipOf(r.effectType, ClaimableBalanceEntry) && Detail(r, "balance_id") == Some(id)
    case PoolSubject(id) =>
      || (r.effectType.LiquidityPoolCreated? && Detail(r, "liquidity_pool") == Some(id))
      || (r.effectType.LiquidityPoolRemoved? && Detail(r, "liquidity_pool_id") == Some(id))
  }

  /** The subject's changes, in order. */
  ghost function ChangesOf(changes: seq<Change>, s: Subject): (mine: seq<Change>)
    ensures forall c | c in mine :: Concerns(c, s)
  {
    if changes == [] then [] else
      var c := changes[|changes| - 1];
      ChangesOf(changes[..|changes| - 1], s) + if Concerns(c, s) then [c] else []
  }

  /** The records about the subject, in order. */
  ghost function RecordsOf(records: seq<EffectRecord>, s: Subject): seq<EffectRecord> {
    if records == [] then [] else
      var r := records[|records| - 1];
      RecordsOf(records[..|records| - 1], s) + if NamesSubject(r, s) then [r] else []
  }

  lemma {:induction false} RecordsOfConcat(a: seq<EffectRecord>, b: seq<EffectRecord>, s: Subject)
    ensures RecordsOf(a + b, s) == RecordsOf(a, s) + RecordsOf(b, s)
  {
    hide NamesSubject;
    if b == [] {
      assert a + b == a;
    } else {
      assert (a + b)[..|a + b| - 1] == a + b[..|b| - 1];
      RecordsOfConcat(a, b[..|b| - 1], s);
    }
  }

  /** A change's records name exactly the subjects it concerns or rivals; a rival has one record. */
  lemma RecordsNameTheirChange(source: string, c: Change, s: Subject)
    ensures |SponsorshipRecords(source, c)| <= 1 && |LifecycleRecords(source, c)| <= 1
    ensures forall r | r in SponsorshipRecords(source, c) :: NamesSubject(r, s) <==> Concerns(c, s) || Rival(c, s)
    ensures forall r | r in LifecycleRecords(source, c) :: NamesSubject(r, s) <==> Concerns(c, s) || Rival(c, s)
    ensures Rival(c, s) ==> !Concerns(c, s) && |SponsorshipRecords(source, c)| == 1 && LifecycleRecords(source, c) == []
  {
  }

  lemma RecordsOfFew(records: seq<EffectRecord>, s: Subject, keep: bool)
    requires |records| <= 1 && forall r | r in records :: NamesSubject(r, s) <==> keep
    ensures RecordsOf(records, s) == if keep then records else []
  {
    hide NamesSubject;
    if records != [] {
      assert records[0] in records && records[..0] == [];
    }
  }

  lemma SelectedStep(source: string, before: seq<EffectRecord>, c: Change, s: Subject)
    ensures var a, b := SponsorshipRecords(source, c), LifecycleRecords(source, c);
            RecordsOf(before + a + b, s) ==
            if Concerns(c, s) || Rival(c, s) then RecordsOf(before, s) + a + b else RecordsOf(before, s)
  {
    RecordsNameTheirChange(source, c, s);
    hide SponsorshipRecords, LifecycleRecords, NamesSubject, Concerns, Rival, RecordsOf;
    var a, b, keep := SponsorshipRecords(source, c), LifecycleRecords(source, c), Concerns(c, s) || Rival(c, s);
    RecordsOfFew(a, s, keep);
    RecordsOfFew(b, s, keep);
    RecordsOfConcat(before + a, b, s);
    RecordsOfConcat(before, a, s);
  }

  lemma ChangeRecordsSnoc(source: string, changes: seq<Change>, c: Change)
    ensures ChangeRecords(source, changes + [c]) ==
            ChangeRecords(source, changes) + SponsorshipRecords(source, c) + LifecycleRecords(source, c)
  {
    assert (changes + [c])[..|changes|] == changes;
  }

  lemma ChangesOfSnoc(changes: seq<Change>, c: Change, s: Subject)
    ensures ChangesOf(changes + [c], s) == ChangesOf(changes, s) + if Concerns(c, s) then [c] else []
  {
    assert (changes + [c])[..|changes|] == changes;
  }

  ghost function Rivals(changes: seq<Change>, s: Subject): nat {
    if changes == [] then 0 else
      Rivals(changes[..|changes| - 1], s) + if Rival(changes[|changes| - 1], s) then 1 else 0
  }

  ghost predicate NoRival(changes: seq<Change>, s: Subject) {
    forall c | c in changes :: !Rival(c, s)
  }

  lemma RivalsSnoc(changes: seq<Change>, c: Change, s: Subject)
    ensures Rivals(changes + [c], s) == Rivals(changes, s) + if Rival(c, s) then 1 else 0
    ensures NoRival(changes + [c], s) <==> NoRival(changes, s) && !Rival(c, s)
  {
    hide Rival;
    var all := changes + [c];
    assert all[..|changes|] == changes;
    assert forall x :: x in all <==> x in changes || x == c;
  }

  lemma NothingSelected(source: string, s: Subject)
    ensures RecordsOf(ChangeRecords(source, []), s) == ChangeRecords(source, ChangesOf([], s)) == []
    ensures Rivals([], s) == 0 && NoRival([], s)
  {
  }

  /** The selection holds one record more than the subject's changes gave for each rival, and nothing else. */
  lemma {:induction false} SelectionCounts(source: string, changes: seq<Change>, s: Subject)
    ensures |RecordsOf(ChangeRecords(source, changes), s)| ==
            |ChangeRecords(source, ChangesOf(changes, s))| + Rivals(changes, s)
    ensures NoRival(changes, s) ==>
            RecordsOf(ChangeRecords(source, changes), s) == ChangeRecords(source, ChangesOf(changes, s))
    ensures Rivals(changes, s) == 0 <==> NoRival(changes, s)
    decreases |changes|
  {
    hide RecordsOf, ChangeRecords, ChangesOf, Rivals, NoRival;
    if changes == [] {
      NothingSelected(source, s);
    } else {
      var front, c := changes[..|changes| - 1], changes[|changes| - 1];
      SelectionCounts(source, front, s);
      RivalsSnoc(front, c, s);
      SelectionLast(source, front, c, s);
      assert changes == front + [c];
    }
  }

  lemma SelectionLast(source: string, front: seq<Change>, c: Change, s: Subject)
    ensures var old_, own := RecordsOf(ChangeRecords(source, front), s), ChangeRecords(source, ChangesOf(front, s));
            var new_, ownNew := RecordsOf(ChangeRecords(source, front + [c]), s), ChangeRecords(source, ChangesOf(front + [c], s));
            && |new_| - |ownNew| == |old_| - |own| + (if Rival(c, s) then 1 else 0)
            && (old_ == own && !Rival(c, s) ==> new_ == ownNew)
  {
    RecordsNameTheirChange(source, c, s);
    hide SponsorshipRecords, LifecycleRecords, RecordsOf, ChangeRecords, ChangesOf, Concerns, Rival, NamesSubject;
    ChangeRecordsSnoc(source, front, c);
    ChangesOfSnoc(front, c, s);
    SelectedStep(source, ChangeRecords(source, front), c, s);
    ChangeRecordsSnoc(source, ChangesOf(front, s), c);
    assert ChangesOf(front, s) + [] == ChangesOf(front, s);
  }

  /**
   Selecting the records about a subject gives the records of its own changes if and only if no
   rival is among the changes; an account, a claimable balance and a pool have no rivals.
   */
  lemma SelectedRecords(source: string, changes: seq<Change>, s: Subject)
    ensures RecordsOf(ChangeRecords(source, changes), s) == ChangeRecords(source, ChangesOf(changes, s)) <==> NoRival(changes, s)
    ensures !s.TrustlineSubject? && !s.DataSubject? ==> NoRival(changes, s)
  {
    hide RecordsOf, ChangeRecords, ChangesOf;
    SelectionCounts(source, changes, s);
  }

  /** The subject's changes, taken out of the list, start each where the previous ended. */
  ghost predicate ChainedFor(changes: seq<Change>, s: Subject) {
    var mine := ChangesOf(changes, s);
    forall i | 0 < i < |mine| :: mine[i].pre == mine[i - 1].post
  }

  function SubjectType(s: Subject): SponsoredType
    requires !s.PoolSubject?
  {
    match s
    case AccountSubject(_) => AccountEntry
    case TrustlineSubject(_, _) => TrustlineEntry
    case DataSubject(_, _) => DataEntry
    case BalanceSubject(_) => ClaimableBalanceEntry
  }

  /**
   Within any operation's records, those about an entry without rivals there replay to its final
   sponsor; an account or a claimable balance never has one.
   */
  lemma MixedSponsorshipReplay(source: string, changes: seq<Change>, s: Subject)
    requires !s.PoolSubject? && ChangesOf(changes, s) != [] && ChainedFor(changes, s)
    requires s.TrustlineSubject? || s.DataSubject? ==> NoRival(changes, s)
    ensures var mine := ChangesOf(changes, s);
            ReplaySponsors(SponsorOf(mine[0].pre), RecordsOf(ChangeRecords(source, changes), s)) ==
            Some(SponsorOf(mine[|mine| - 1].post))
  {
    hide ReplaySponsors, ChangeRecords, RecordsOf;
    var mine := ChangesOf(changes, s);
    assert forall i | 0 <= i < |mine| :: mine[i] in mine;
    SelectedRecords(source, changes, s);
    SponsorshipReplay(source, SubjectType(s), mine);
  }

  /** Within any operation's records, those about a pool strictly alternate. */
  lemma MixedLifecycle(source: string, changes: seq<Change>, id: string)
    requires ChangesOf(changes, PoolSubject(id)) != [] && ChainedFor(changes, PoolSubject(id))
    ensures var mine := ChangesOf(changes, PoolSubject(id));
            Alternates(mine[0].pre.Some?, RecordsOf(ChangeRecords(source, changes), PoolSubject(id)), mine[|mine| - 1].post.Some?)
  {
    hide Alternates, ChangeRecords, RecordsOf;
    var mine := ChangesOf(changes, PoolSubject(id));
    assert forall i | 0 <= i < |mine| :: mine[i] in mine;
    SelectedRecords(source, changes, PoolSubject(id));
    LifecycleAlternates(source, mine);
  }

  /** A rival at work: a trustline's record names its account only, a data entry's its name only. */
  lemma TrustlineAndDataRecordsAreAmbiguous(source: string, sponsor: string)
    ensures var a, b := Entry(Some(sponsor), "G", "USD"), Entry(Some(sponsor), "G", "EUR");
            SponsorshipRecords(source, Change(Sponsored(TrustlineEntry), None, Some(a))) ==
            SponsorshipRecords(source, Change(Sponsored(TrustlineEntry), None, Some(b)))
    ensures var a, b := Entry(Some(sponsor), "G", "name"), Entry(Some(sponsor), "H", "name");
            SponsorshipRecords(source, Change(Sponsored(DataEntry), None, Some(a))) ==
            SponsorshipRecords(source, Change(Sponsored(DataEntry), None, Some(b)))
  {
  }

  // Stellar asset contract events.

  /** A contract event read as a Stellar asset contract event; Unrecognised when that fails. */
  datatype SacEvent =
    | Transfer(asset: Asset, from: string, to: string, amount: int)
    | Mint(asset: Asset, to: string, amount: int)
    | Clawback(asset: Asset, from: string, amount: int)
    | Burn(asset: Asset, from: string, amount: int)
    | Unrecognised

  ghost function MintedBy(e: SacEvent, a: Asset): int {
    match e
    case Mint(b, _, n) => if a == b then n else 0
    case Clawback(b, _, n) => if a == b then -n else 0
    case Burn(b, _, n) => if a == b then -n else 0
    case _ => 0
  }

  /** Mints minus burns minus clawbacks. */
  ghost function Minted(events: seq<SacEvent>, a: Asset): int {
    if events == [] then 0 else Minted(events[..|events| - 1], a) + MintedBy(events[|events| - 1], a)
  }

  ghost predicate IsAbout(r: EffectRecord, a: Asset) {
    match a
    case Native => Detail(r, "asset_type") == Some("native") && "asset_code" !in r.details
    case Credit(t, code, issuer) =>
      Detail(r, "asset_type") == Some(t) && Detail(r, "asset_code") == Some(code) && Detail(r, "asset_issuer") == Some(issuer)
  }

  /** What a record adds to the asset's net credit. */
  ghost function NetOf(r: EffectRecord, a: Asset): int {
    if !IsAbout(r, a) || "amount" !in r.details || !r.details["amount"].N? then 0
    else if r.effectType.AccountCredited? || r.effectType.ContractCredited? then r.details["amount"].n
    else if r.effectType.AccountDebited? || r.effectType.ContractDebited? then -r.details["amount"].n
    else 0
  }

  ghost function Net(records: seq<EffectRecord>, a: Asset): int {
    if records == [] then 0 else Net(records[..|records| - 1], a) + NetOf(records[|records| - 1], a)
  }

  lemma {:induction false} NetConcat(x: seq<EffectRecord>, y: seq<EffectRecord>, a: Asset)
    ensures Net(x + y, a) == Net(x, a) + Net(y, a)
  {
    if y == [] {
      assert x + y == x;
    } else {
      assert (x + y)[..|x + y| - 1] == x + y[..|y| - 1];
      NetConcat(x, y[..|y| - 1], a);
    }
  }

  /** The account or contract a credit or debit record is about. */
  ghost function PartyOf(r: EffectRecord): string {
    if Detail(r, "contract").Some? then Detail(r, "contract").value else r.address
  }

  /** The records an event must give: which party, which direction, how much of which asset. */
  ghost predicate IsMovement(r: EffectRecord, isAccount: string -> bool, party: string, credit: bool, e: SacEvent, kind: string)
    requires !e.Unrecognised?
  {
    && PartyOf(r) == party
    && (isAccount(party) <==> Detail(r, "contract") == None)
    && r.effectType == (if isAccount(party) then (if credit then AccountCredited else AccountDebited)
                        else if credit then ContractCredited else ContractDebited)
    && IsAbout(r, e.asset) && "amount" in r.details && r.details["amount"] == N(e.amount)
    && Detail(r, "contract_event_type") == Some(kind)
  }

  /** A transfer gives one equal debit and credit; mint a credit; clawback and burn a debit; anything else nothing. */
  ghost predicate MovementsOf(rs: seq<EffectRecord>, isAccount: string -> bool, e: SacEvent) {
    match e
    case Transfer(_, from, to, _) =>
      |rs| == 2 && IsMovement(rs[0], isAccount, from, false, e, "transfer") && IsMovement(rs[1], isAccount, to, true, e, "transfer")
    case Mint(_, to, _) => |rs| == 1 && IsMovement(rs[0], isAccount, to, true, e, "mint")
    case Clawback(_, from, _) => |rs| == 1 && IsMovement(rs[0], isAccount, from, false, e, "clawback")
    case Burn(_, from, _) => |rs| == 1 && IsMovement(rs[0], isAccount, from, false, e, "burn")
    case Unrecognised => rs == []
  }

  /** The details of a movement, before a contract party is noted. */
  function SacDetails(a: Asset, kind: string, amount: int): Details {
    AssetDetails(a, "")["contract_event_type" := S(kind)]["amount" := N(amount)]
  }

  /** What a movement's details say, whether its party is an account or, noted beside, a contract. */
  lemma SacDetailsAbout(e: SacEvent, kind: string, contract: Option<string>, address: string, t: EffectType)
    requires !e.Unrecognised?
    ensures var d := SacDetails(e.asset, kind, e.amount);
            var r := EffectRecord(address, t, if contract.None? then d else d["contract" := S(contract.value)]);
            IsAbout(r, e.asset) && "amount" in r.details && r.details["amount"] == N(e.amount) &&
            Detail(r, "contract_event_type") == Some(kind) && Detail(r, "contract") == contract
  {
    assert "" + "asset_type" == "asset_type" && "" + "asset_code" == "asset_code" && "" + "asset_issuer" == "asset_issuer";
  }

  lemma AssetTellsApart(r: EffectRecord, a: Asset, b: Asset)
    requires WellFormed(a) && WellFormed(b) && IsAbout(r, a) && IsAbout(r, b)
    ensures a == b
  {
  }

  /** A credit asset has a type other than native. */
  predicate WellFormed(a: Asset) {
    a.Credit? ==> a.assetType != "native"
  }

  predicate WellFormedEvent(e: SacEvent) {
    !e.Unrecognised? ==> WellFormed(e.asset)
  }

  lemma MovementNet(r: EffectRecord, isAccount: string -> bool, party: string, credit: bool, e: SacEvent, kind: string, a: Asset)
    requires !e.Unrecognised? && IsMovement(r, isAccount, party, credit, e, kind) && WellFormed(e.asset) && WellFormed(a)
    ensures NetOf(r, a) == if a != e.asset then 0 else if credit then e.amount else -e.amount
  {
    if IsAbout(r, a) {
      AssetTellsApart(r, a, e.asset);
    }
  }

  lemma NetOne(r: EffectRecord, a: Asset)
    ensures Net([r], a) == NetOf(r, a)
  {
    assert [r][..0] == [];
  }

  lemma NetTwo(r: EffectRecord, t: EffectRecord, a: Asset)
    ensures Net([r, t], a) == NetOf(r, a) + NetOf(t, a)
  {
    NetConcat([r], [t], a);
    NetOne(r, a);
    NetOne(t, a);
    assert [r] + [t] == [r, t];
  }

  lemma MovementsNet(rs: seq<EffectRecord>, isAccount: string -> bool, e: SacEvent, a: Asset)
    requires MovementsOf(rs, isAccount, e) && WellFormedEvent(e) && WellFormed(a)
    ensures Net(rs, a) == MintedBy(e, a)
  {
    hide PartyOf, IsAbout, IsMovement, NetOf;
    if e.Unrecognised? {
      return;
    }
    match e
    case Transfer(_, from, to, _) =>
      MovementNet(rs[0], isAccount, from, false, e, "transfer", a);
      MovementNet(rs[1], isAccount, to, true, e, "transfer", a);
      NetTwo(rs[0], rs[1], a);
      assert rs == [rs[0], rs[1]];
    case Mint(_, to, _) =>
      MovementNet(rs[0], isAccount, to, true, e, "mint", a);
      NetOne(rs[0], a);
      assert rs == [rs[0]];
    case Clawback(_, from, _) =>
      MovementNet(rs[0], isAccount, from, false, e, "clawback", a);
      NetOne(rs[0], a);
      assert rs == [rs[0]];
    case Burn(_, from, _) =>
      MovementNet(rs[0], isAccount, from, false, e, "burn", a);
      NetOne(rs[0], a);
      assert rs == [rs[0]];
  }

  /** The records of a list of events are their movements, in order. */
  ghost predicate MovementsOfAll(rs: seq<EffectRecord>, isAccount: string -> bool, events: seq<SacEvent>)
    decreases |events|
  {
    if events == [] then rs == [] else
      exists n :: 0 <= n <= |rs| && MovementsOf(rs[n..], isAccount, events[|events| - 1]) &&
                  MovementsOfAll(rs[..n], isAccount, events[..|events| - 1])
  }

  lemma MovementsSplit(rs: seq<EffectRecord>, isAccount: string -> bool, events: seq<SacEvent>)
      returns (front: seq<EffectRecord>, back: seq<EffectRecord>)
    requires MovementsOfAll(rs, isAccount, events) && events != []
    ensures rs == front + back
    ensures MovementsOfAll(front, isAccount, events[..|events| - 1])
    ensures MovementsOf(back, isAccount, events[|events| - 1])
  {
    hide MovementsOf;
    var n :| 0 <= n <= |rs| && MovementsOf(rs[n..], isAccount, events[|events| - 1]) &&
             MovementsOfAll(rs[..n], isAccount, events[..|events| - 1]);
    front, back := rs[..n], rs[n..];
  }

  lemma NoMovements(isAccount: string -> bool)
    ensures MovementsOfAll([], isAccount, [])
  {
  }

  lemma MovementsSnoc(front: seq<EffectRecord>, back: seq<EffectRecord>, isAccount: string -> bool, events: seq<SacEvent>, e: SacEvent)
    requires MovementsOfAll(front, isAccount, events) && MovementsOf(back, isAccount, e)
    ensures MovementsOfAll(front + back, isAccount, events + [e])
  {
    hide MovementsOf;
    var rs, all, n := front + back, events + [e], |front|;
    assert rs[n..] == back && rs[..n] == front && all[..|all| - 1] == events;
  }

  lemma MintedLast(events: seq<SacEvent>, a: Asset)
    ensures Minted([], a) == 0
    ensures events != [] ==>
      Minted(events, a) == Minted(events[..|events| - 1], a) + MintedBy(events[|events| - 1], a)
  {
  }

  /** Conservation: for each asset, credits minus debits emitted equal mints minus burns minus clawbacks. */
  lemma {:induction false} SacConservation(rs: seq<EffectRecord>, isAccount: string -> bool, events: seq<SacEvent>, a: Asset)
    requires MovementsOfAll(rs, isAccount, events) && WellFormed(a)
    requires forall e | e in events :: WellFormedEvent(e)
    ensures Net(rs, a) == Minted(events, a)
    decreases |events|
  {
    MintedLast(events, a);
    if events != [] {
      hide MovementsOf, MintedBy, Net, NetOf, Minted, MovementsOfAll, WellFormedEvent, WellFormed;
      var last := events[|events| - 1];
      var front, back := MovementsSplit(rs, isAccount, events);
      SacConservation(front, isAccount, events[..|events| - 1], a);
      MovementsNet(back, isAccount, last, a);
      NetConcat(front, back, a);
    }
  }

  /** What an event moves into the party's hands, less what it moves out. */
  ghost function MovedTo(e: SacEvent, party: string, a: Asset): int {
    match e
    case Transfer(b, from, to, n) => if a != b then 0 else (if to == party then n else 0) - if from == party then n else 0
    case Mint(b, to, n) => if a == b && to == party then n else 0
    case Clawback(b, from, n) => if a == b && from == party then -n else 0
    case Burn(b, from, n) => if a == b && from == party then -n else 0
    case Unrecognised => 0
  }

  ghost function Moved(events: seq<SacEvent>, party: string, a: Asset): int {
    if events == [] then 0 else
      Moved(events[..|events| - 1], party, a) + MovedTo(events[|events| - 1], party, a)
  }

  /** A party's net credit in the records. */
  ghost function NetOfParty(records: seq<EffectRecord>, party: string, a: Asset): int {
    if records == [] then 0 else
      var r := records[|records| - 1];
      NetOfParty(records[..|records| - 1], party, a) + if PartyOf(r) == party then NetOf(r, a) else 0
  }

  lemma {:induction false} NetOfPartyConcat(x: seq<EffectRecord>, y: seq<EffectRecord>, party: string, a: Asset)
    ensures NetOfParty(x + y, party, a) == NetOfParty(x, party, a) + NetOfParty(y, party, a)
  {
    hide PartyOf, NetOf;
    if y == [] {
      assert x + y == x;
    } else {
      assert (x + y)[..|x + y| - 1] == x + y[..|y| - 1];
      NetOfPartyConcat(x, y[..|y| - 1], party, a);
    }
  }

  lemma NetOfPartyOne(r: EffectRecord, party: string, a: Asset)
    ensures NetOfParty([r], party, a) == if PartyOf(r) == party then NetOf(r, a) else 0
  {
    hide PartyOf, NetOf;
    assert [r][..0] == [];
  }

  lemma MovementOfParty(r: EffectRecord, isAccount: string -> bool, mover: string, credit: bool, e: SacEvent, kind: string,
                        party: string, a: Asset)
    requires !e.Unrecognised? && IsMovement(r, isAccount, mover, credit, e, kind) && WellFormed(e.asset) && WellFormed(a)
    ensures NetOfParty([r], party, a) == if a != e.asset || mover != party then 0 else if credit then e.amount else -e.amount
  {
    MovementNet(r, isAccount, mover, credit, e, kind, a);
    hide NetOf, IsAbout, PartyOf;
    NetOfPartyOne(r, party, a);
  }

  lemma MovementsOfParty(rs: seq<EffectRecord>, isAccount: string -> bool, e: SacEvent, party: string, a: Asset)
    requires MovementsOf(rs, isAccount, e) && WellFormedEvent(e) && WellFormed(a)
    ensures NetOfParty(rs, party, a) == MovedTo(e, party, a)
  {
    hide PartyOf, IsAbout, IsMovement, NetOf;
    if e.Unrecognised? {
      return;
    }
    match e
    case Transfer(_, from, to, _) =>
      MovementOfParty(rs[0], isAccount, from, false, e, "transfer", party, a);
      MovementOfParty(rs[1], isAccount, to, true, e, "transfer", party, a);
      assert rs == [rs[0]] + [rs[1]];
      NetOfPartyConcat([rs[0]], [rs[1]], party, a);
    case Mint(_, to, _) =>
      MovementOfParty(rs[0], isAccount, to, true, e, "mint", party, a);
      assert rs == [rs[0]];
    case Clawback(_, from, _) =>
      MovementOfParty(rs[0], isAccount, from, false, e, "clawback", party, a);
      assert rs == [rs[0]];
    case Burn(_, from, _) =>
      MovementOfParty(rs[0], isAccount, from, false, e, "burn", party, a);
      assert rs == [rs[0]];
  }

  lemma MovedLast(events: seq<SacEvent>, party: string, a: Asset)
    ensures Moved([], party, a) == 0 == NetOfParty([], party, a)
    ensures events != [] ==>
      Moved(events, party, a) == Moved(events[..|events| - 1], party, a) + MovedTo(events[|events| - 1], party, a)
  {
  }

  /** For each account or contract and each asset, credits minus debits under its name are what the events moved to it. */
  lemma {:induction false} SacPartyBalance(rs: seq<EffectRecord>, isAccount: string -> bool, events: seq<SacEvent>, party: string, a: Asset)
    requires MovementsOfAll(rs, isAccount, events) && WellFormed(a)
    requires forall e | e in events :: WellFormedEvent(e)
    ensures NetOfParty(rs, party, a) == Moved(events, party, a)
    decreases |events|
  {
    MovedLast(events, party, a);
    if events != [] {
      hide MovementsOf, MovedTo, NetOfParty, NetOf, Moved, MovementsOfAll, WellFormedEvent, WellFormed, PartyOf;
      var last := events[|events| - 1];
      var front, back := MovementsSplit(rs, isAccount, events);
      SacPartyBalance(front, isAccount, events[..|events| - 1], party, a);
      MovementsOfParty(back, isAccount, last, party, a);
      NetOfPartyConcat(front, back, party, a);
    }
  }

  /**
   An account's record is an account effect; a contract's is a contract effect that names the
   contract. Credits come from transfers and mints, debits from transfers, clawbacks and burns.
   */
  ghost predicate InForm(r: EffectRecord, isAccount: string -> bool) {
    && Detail(r, "contract_event_type").Some?
    && Detail(r, "contract_event_type").value in
       (if r.effectType == AccountCredited || r.effectType == ContractCredited then {"transfer", "mint"} else {"transfer", "clawback", "burn"})
    && if r.effectType == AccountCredited || r.effectType == AccountDebited
    then isAccount(r.address) && Detail(r, "contract") == None
    else (r.effectType == ContractCredited || r.effectType == ContractDebited) &&
         Detail(r, "contract").Some? && !isAccount(Detail(r, "contract").value)
  }

  lemma MovementInForm(r: EffectRecord, isAccount: string -> bool, party: string, credit: bool, e: SacEvent, kind: string)
    requires !e.Unrecognised? && IsMovement(r, isAccount, party, credit, e, kind)
    requires kind in (if credit then {"transfer", "mint"} else {"transfer", "clawback", "burn"})
    ensures InForm(r, isAccount)
  {
  }

  lemma {:induction false} MovementsInForm(rs: seq<EffectRecord>, isAccount: string -> bool, events: seq<SacEvent>)
    requires MovementsOfAll(rs, isAccount, events)
    ensures forall r | r in rs :: InForm(r, isAccount)
    decreases |events|
  {
    hide InForm, IsMovement;
    if events != [] {
      var last := events[|events| - 1];
      var front, back := MovementsSplit(rs, isAccount, events);
      MovementsInForm(front, isAccount, events[..|events| - 1]);
      match last {
        case Transfer(_, from, to, _) =>
          MovementInForm(back[0], isAccount, from, false, last, "transfer");
          MovementInForm(back[1], isAccount, to, true, last, "transfer");
        case Mint(_, to, _) => MovementInForm(back[0], isAccount, to, true, last, "mint");
        case Clawback(_, from, _) => MovementInForm(back[0], isAccount, from, false, last, "clawback");
        case Burn(_, from, _) => MovementInForm(back[0], isAccount, from, false, last, "burn");
        case Unrecognised =>
      }
    }
  }

  /** A record that names a contract is kept under the operation's source account. */
  ghost predicate ContractsUnder(source: string, rs: seq<EffectRecord>) {
    forall i | 0 <= i < |rs| :: Detail(rs[i], "contract").Some? ==> rs[i].address == source
  }

  // The accumulator.

  /** One operation's effect accumulator: efx with the parts of opWrapper it reads. */
  class Efx {
    const source: string
    const network: string
    const isAccount: string -> bool
    var records: seq<EffectRecord>

    constructor (source: string, network: string, isAccount: string -> bool)
      ensures records == [] && this.source == source && this.network == network && this.isAccount == isAccount
    {
      this.source, this.network, this.isAccount := source, network, isAccount;
      records := [];
    }

    method Add(address: string, effectType: EffectType, details: Details)
      modifies this
      ensures records == old(records) + [EffectRecord(address, effectType, details)]
    {
      records := records + [EffectRecord(address, effectType, details)];
    }

    /** The loop over signers held before. */
    method AddHeldSigners(before: map<string, int>, after: map<string, int>, sorted: seq<string>)
      requires forall k | k in sorted :: k in before
      modifies this
      ensures records == old(records) + HeldSigners(source, before, after, sorted)
    {
      for i := 0 to |sorted|
        invariant records == old(records) + HeldSigners(source, before, after, sorted[..i])
      {
        var addy := sorted[i];
        HeldSignersStep(source, before, after, sorted, i);
        if addy !in after {
          Add(source, SignerRemoved, map["public_key" := S(addy)]);
          continue;
        }
        if after[addy] != before[addy] {
          Add(source, SignerUpdated, map["public_key" := S(addy), "weight" := N(after[addy])]);
        }
      }
      assert sorted[..|sorted|] == sorted;
    }

    /** The loop over signers held after. */
    method AddNewSigners(before: map<string, int>, after: map<string, int>, sorted: seq<string>)
      requires forall k | k in sorted :: k in after
      modifies this
      ensures records == old(records) + NewSigners(source, before, after, sorted)
    {
      for i := 0 to |sorted|
        invariant records == old(records) + NewSigners(source, before, after, sorted[..i])
      {
        var addy := sorted[i];
        NewSignersStep(source, before, after, sorted, i);
        if addy in before {
          continue;
        }
        Add(source, SignerCreated, map["public_key" := S(addy), "weight" := N(after[addy])]);
      }
      assert sorted[..|sorted|] == sorted;
    }

    /** The signer part of addSetOptionsEffects, for one account change with both states. */
    method AddSignerEffects(before: map<string, int>, after: map<string, int>)
      modifies this
      ensures records == old(records) + SignerDiff(source, before, after)
    {
      hide HeldSigners, NewSigners;
      if before == after {
        SignerDiffIsMinimal(source, before, after);
        return;
      }
      FnName.StringLeqIsTotal();
      var sorted := Ordering.SortedSetKeys(FnName.STRING_LEQ, before.Keys);
      assert sorted == FnName.SortedKeysOf(before);
      AddHeldSigners(before, after, sorted);
      var afterSorted := Ordering.SortedSetKeys(FnName.STRING_LEQ, after.Keys);
      assert afterSorted == FnName.SortedKeysOf(after);
      AddNewSigners(before, after, afterSorted);
    }

    /** The loop over changes at the end of addSetOptionsEffects. */
    method AddSetOptionsSignerEffects(changes: seq<SignerChange>)
      modifies this
      ensures records == old(records) + SignerRecords(source, changes)
    {
      hide SignerDiff;
      for i := 0 to |changes|
        invariant records == old(records) + SignerRecords(source, changes[..i])
      {
        var change := changes[i];
        assert changes[..i + 1][..i] == changes[..i];
        if !change.ofAccount || change.pre.None? || change.post.None? {
          continue;
        }
        AddSignerEffects(change.pre.value, change.post.value);
      }
      assert changes[..|changes|] == changes;
    }

    /** addSponsorshipEffects. */
    method AddSponsorshipEffects(c: Change)
      modifies this
      ensures records == old(records) + SponsorshipRecords(source, c)
    {
      if !c.entryType.Sponsored? {
        return;
      }
      var t := c.entryType.sponsoredType;
      var effectType := SponsorshipUpdated(t);
      var details: Details := map[];
      if (c.pre.None? || c.pre.value.sponsor.None?) && c.post.Some? && c.post.value.sponsor.Some? {
        effectType := SponsorshipCreated(t);
        details := details["sponsor" := S(c.post.value.sponsor.value)];
      } else if c.pre.Some? && c.pre.value.sponsor.Some? && (c.post.None? || c.post.value.sponsor.None?) {
        effectType := SponsorshipRemoved(t);
        details := details["former_sponsor" := S(c.pre.value.sponsor.value)];
      } else if c.pre.Some? && c.pre.value.sponsor.Some? && c.post.Some? && c.post.value.sponsor.Some? {
        var pre, post := c.pre.value.sponsor.value, c.post.value.sponsor.value;
        if pre == post {
          return;
        }
        details := details["new_sponsor" := S(post)];
        details := details["former_sponsor" := S(pre)];
      } else {
        return;
      }
      var data := if c.post.Some? then c.post.value else c.pre.value;
      match t {
        case AccountEntry => Add(data.owner, effectType, details);
        case TrustlineEntry => Add(data.owner, effectType, details);
        case DataEntry =>
          details := details["data_name" := S(data.tag)];
          Add(source, effectType, details);
        case ClaimableBalanceEntry =>
          details := details["balance_id" := S(data.tag)];
          Add(source, effectType, details);
      }
    }

    /** addLPLifecycleEffects. */
    method AddLPLifecycleEffects(c: Change)
      modifies this
      ensures records == old(records) + LifecycleRecords(source, c)
    {
      if !c.entryType.LiquidityPoolEntry? {
        return;
      }
      if c.pre.None? && c.post.Some? {
        Add(source, LiquidityPoolCreated, map["liquidity_pool" := S(c.post.value.tag)]);
      } else if c.pre.Some? && c.post.None? {
        Add(source, LiquidityPoolRemoved, map["liquidity_pool_id" := S(c.pre.value.tag)]);
      }
    }

    /** The cross-cutting loop of ExtractEffects. */
    method AddChangeEffects(changes: seq<Change>)
      modifies this
      ensures records == old(records) + ChangeRecords(source, changes)
    {
      for i := 0 to |changes|
        invariant records == old(records) + ChangeRecords(source, changes[..i])
      {
        assert changes[..i + 1][..i] == changes[..i];
        AddSponsorshipEffects(changes[i]);
        AddLPLifecycleEffects(changes[i]);
      }
      assert changes[..|changes|] == changes;
    }

    /** One side of a movement: an account under its own address, a contract under the source account. */
    method AddMovement(party: string, credit: bool, details: Details, ghost e: SacEvent, ghost kind: string)
      requires !e.Unrecognised? && details == SacDetails(e.asset, kind, e.amount)
      modifies this
      ensures |records| == |old(records)| + 1 && records[..|old(records)|] == old(records)
      ensures IsMovement(records[|old(records)|], isAccount, party, credit, e, kind)
      ensures ContractsUnder(source, records[|old(records)|..])
    {
      hide SacDetails, IsAbout;
      var effectType := if isAccount(party) then (if credit then AccountCredited else AccountDebited)
                        else if credit then ContractCredited else ContractDebited;
      if isAccount(party) {
        SacDetailsAbout(e, kind, None, party, effectType);
        Add(party, effectType, details);
      } else {
        SacDetailsAbout(e, kind, Some(party), source, effectType);
        Add(source, effectType, details["contract" := S(party)]);
      }
    }

    /** The loop body of addInvokeHostFunctionEffects. */
    method AddSacEffects(e: SacEvent)
      modifies this
      ensures |records| >= |old(records)| && records[..|old(records)|] == old(records)
      ensures MovementsOf(records[|old(records)|..], isAccount, e)
      ensures ContractsUnder(source, records[|old(records)|..])
    {
      hide IsMovement, SacDetails;
      match e {
        case Unrecognised =>
        case Transfer(asset, from, to, amount) =>
          var details := SacDetails(asset, "transfer", amount);
          var toDetails := details;
          AddMovement(from, false, details, e, "transfer");
          ghost var first := records;
          AddMovement(to, true, toDetails, e, "transfer");
          assert records[..|first|] == first;
        case Mint(asset, to, amount) =>
          AddMovement(to, true, SacDetails(asset, "mint", amount), e, "mint");
        case Clawback(asset, from, amount) =>
          AddMovement(from, false, SacDetails(asset, "clawback", amount), e, "clawback");
        case Burn(asset, from, amount) =>
          AddMovement(from, false, SacDetails(asset, "burn", amount), e, "burn");
      }
    }

    /** addInvokeHostFunctionEffects: the movements of every event, or nothing without a network. */
    method AddInvokeHostFunctionEffects(events: Result<seq<SacEvent>, string>)
      modifies this
      ensures |records| >= |old(records)| && records[..|old(records)|] == old(records)
      ensures network == "" || events.Err? ==> records == old(records)
      ensures network != "" && events.Ok? ==> MovementsOfAll(records[|old(records)|..], isAccount, events.value)
      ensures ContractsUnder(source, records[|old(records)|..])
    {
      hide MovementsOf, MovementsOfAll;
      if network == "" {
        return;
      }
      NoMovements(isAccount);
      if events.Err? {
        return;
      }
      ghost var start := |records|;
      assert records[start..] == [] && events.value[..0] == [];
      for i := 0 to |events.value|
        invariant |records| >= start && records[..start] == old(records)
        invariant MovementsOfAll(records[start..], isAccount, events.value[..i])
        invariant ContractsUnder(source, records[start..])
      {
        ghost var sofar := records[start..];
        AddSacEffects(events.value[i]);
        ghost var more := records[start + |sofar|..];
        assert records[start..] == sofar + more;
        assert events.value[..i + 1] == events.value[..i] + [events.value[i]];
        MovementsSnoc(sofar, more, isAccount, events.value[..i], events.value[i]);
        assert records[..start] == old(records) by {
          assert records[..start + |sofar|][..start] == records[..start];
        }
      }
      assert events.value[..|events.value|] == events.value;
    }
  }
}
