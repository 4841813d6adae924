/**
 The light store: what a map from heights to blocks with a status answers, the
 queries derived from that in light-client/src/store.rs, and the in-memory store.
 */
module LightStores {
  import opened Common
  import opened Extrema
  import opened Types
  import opened Blocks

  datatype StoreEntry = StoreEntry(lightBlock: LightBlock, status: Status)

  type StoreMap = map<Height, StoreEntry>

  /** Every block is filed under its own height. */
  ghost predicate WellKeyed(s: StoreMap) {
    forall h :: h in s ==> s[h].lightBlock.Height() == h
  }

  function HeightsWith(s: StoreMap, status: Status): set<Height> {
    set h | h in s && s[h].status == status
  }

  function Get(s: StoreMap, height: Height, status: Status): Option<LightBlock> {
    if height in s && s[height].status == status then Some(s[height].lightBlock) else None
  }

  function Highest(s: StoreMap, status: Status): Option<LightBlock> {
    var hs := HeightsWith(s, status);
    if hs == {} then None else Some(s[Greatest(hs)].lightBlock)
  }

  function HighestBefore(s: StoreMap, height: Height, status: Status): Option<LightBlock> {
    var hs := set h | h in HeightsWith(s, status) && h <= height;
    if hs == {} then None else Some(s[Greatest(hs)].lightBlock)
  }

  function Lowest(s: StoreMap, status: Status): Option<LightBlock> {
    var hs := HeightsWith(s, status);
    if hs == {} then None else Some(s[Least(hs)].lightBlock)
  }

  function Insert(s: StoreMap, b: LightBlock, status: Status): StoreMap {
    s[b.Height() := StoreEntry(b, status)]
  }

  function Remove(s: StoreMap, height: Height, status: Status): StoreMap {
    if height in s && s[height].status == status then s - {height} else s
  }

  /** The block is filed under this status. */
  predicate Filed(s: StoreMap, status: Status, h: Height) {
    h in s && s[h].status == status
  }

  /** Of the heights up to the limit, `h` is the greatest with a block of this status. */
  ghost predicate GreatestFiled(s: StoreMap, status: Status, limit: Height, h: Height) {
    Filed(s, status, h) && h <= limit && forall x: Height :: Filed(s, status, x) && x <= limit ==> x <= h
  }

  ghost predicate LeastFiled(s: StoreMap, status: Status, h: Height) {
    Filed(s, status, h) && forall x: Height :: Filed(s, status, x) ==> h <= x
  }

  /** The last block of a status up to a height, and none exactly if there is none. */
  lemma HighestBeforeOfStatus(s: StoreMap, status: Status, limit: Height)
    ensures match HighestBefore(s, limit, status)
            case None => forall x: Height :: x <= limit ==> !Filed(s, status, x)
            case Some(b) => exists h: Height :: GreatestFiled(s, status, limit, h) && s[h].lightBlock == b
  {
    var hs := set h | h in HeightsWith(s, status) && h <= limit;
    assert forall x: Height :: x in hs <==> Filed(s, status, x) && x <= limit;
    if hs != {} {
      assert GreatestFiled(s, status, limit, Greatest(hs));
    }
  }

  /** The first and the last block of a status. */
  lemma EndsOfStatus(s: StoreMap, status: Status)
    ensures match Highest(s, status)
            case None => forall x: Height :: !Filed(s, status, x)
            case Some(b) => exists h: Height :: GreatestFiled(s, status, I64_MAX, h) && s[h].lightBlock == b
    ensures match Lowest(s, status)
            case None => forall x: Height :: !Filed(s, status, x)
            case Some(b) => exists h: Height :: LeastFiled(s, status, h) && s[h].lightBlock == b
  {
    var hs := HeightsWith(s, status);
    assert forall x: Height :: x in hs <==> Filed(s, status, x);
    if hs != {} {
      assert GreatestFiled(s, status, I64_MAX, Greatest(hs));
      assert LeastFiled(s, status, Least(hs));
    }
  }

  // ---- Queries derived from the others ------------------------------------

  /** The one that is there, or the higher of two (the second on a tie). */
  function SelectHigher(a: Option<LightBlock>, b: Option<LightBlock>): Option<LightBlock> {
    if a.None? then b
    else if b.None? then a
    else if a.value.Height() > b.value.Height() then a else b
  }

  /** The one that is there, or the lower of two (the first on a tie). */
  function SelectLower(a: Option<LightBlock>, b: Option<LightBlock>): Option<LightBlock> {
    if a.None? then b
    else if b.None? then a
    else if a.value.Height() <= b.value.Height() then a else b
  }

  /** The answers to `get` for the three statuses that are not Failed, tried in order of trust. */
  function FirstNonFailed(trusted: Option<LightBlock>, verified: Option<LightBlock>, unverified: Option<LightBlock>)
    : Option<(LightBlock, Status)>
  {
    if trusted.Some? then Some((trusted.value, Trusted))
    else if verified.Some? then Some((verified.value, Verified))
    else if unverified.Some? then Some((unverified.value, Unverified))
    else None
  }

  function GetNonFailed(s: StoreMap, height: Height): Option<(LightBlock, Status)> {
    FirstNonFailed(Get(s, height, Trusted), Get(s, height, Verified), Get(s, height, Unverified))
  }

  function HighestTrustedOrVerifiedBefore(s: StoreMap, height: Height): Option<LightBlock> {
    SelectHigher(HighestBefore(s, height, Trusted), HighestBefore(s, height, Verified))
  }

  function LowestTrustedOrVerified(s: StoreMap): Option<LightBlock> {
    SelectLower(Lowest(s, Trusted), Lowest(s, Verified))
  }

  function GetTrustedOrVerified(s: StoreMap, height: Height): Option<LightBlock> {
    var trusted := Get(s, height, Trusted);
    if trusted.Some? then trusted else Get(s, height, Verified)
  }

  // ---- What the derived queries find --------------------------------------

  /** The block at `h` is trusted or verified. */
  predicate Believed(s: StoreMap, h: Height) {
    h in s && (s[h].status.Trusted? || s[h].status.Verified?)
  }

  /** `h` is the greatest height up to `limit` at which a block is trusted or verified. */
  ghost predicate HighestBelieved(s: StoreMap, limit: Height, h: Height) {
    Believed(s, h) && h <= limit && forall x: Height :: Believed(s, x) && x <= limit ==> x <= h
  }

  /** `h` is the least height at which a block is trusted or verified. */
  ghost predicate LowestBelieved(s: StoreMap, h: Height) {
    Believed(s, h) && forall x: Height :: Believed(s, x) ==> h <= x
  }

  /** The query finds the highest trusted or verified block up to the limit, if there is one. */
  lemma HighestBeforeIff(s: StoreMap, limit: Height, b: LightBlock)
    requires WellKeyed(s)
    ensures HighestTrustedOrVerifiedBefore(s, limit) == Some(b)
            <==> HighestBelieved(s, limit, b.Height()) && s[b.Height()].lightBlock == b
  {
    var ts := set h | h in HeightsWith(s, Trusted) && h <= limit;
    var vs := set h | h in HeightsWith(s, Verified) && h <= limit;
    assert forall x: Height :: Believed(s, x) && x <= limit <==> x in ts || x in vs;
  }

  lemma NoneBelievedIff(s: StoreMap, limit: Height)
    ensures HighestTrustedOrVerifiedBefore(s, limit).None? <==> forall x: Height :: x <= limit ==> !Believed(s, x)
  {
    var ts := set h | h in HeightsWith(s, Trusted) && h <= limit;
    var vs := set h | h in HeightsWith(s, Verified) && h <= limit;
    assert forall x: Height :: Believed(s, x) && x <= limit <==> x in ts || x in vs;
  }

  lemma LowestIff(s: StoreMap, b: LightBlock)
    requires WellKeyed(s)
    ensures LowestTrustedOrVerified(s) == Some(b) <==> LowestBelieved(s, b.Height()) && s[b.Height()].lightBlock == b
    ensures LowestTrustedOrVerified(s).None? <==> forall x: Height :: !Believed(s, x)
  {
    var ts, vs := HeightsWith(s, Trusted), HeightsWith(s, Verified);
    assert forall x: Height :: Believed(s, x) <==> x in ts || x in vs;
  }

  lemma GetNonFailedIff(s: StoreMap, height: Height)
    ensures GetNonFailed(s, height).Some? <==> height in s && !s[height].status.Failed?
    ensures GetNonFailed(s, height).Some? ==>
              GetNonFailed(s, height).value == (s[height].lightBlock, s[height].status)
  {
  }

  // ---- The in-memory store -------------------------------------------------

  class MemoryStore {
    var store: StoreMap

    constructor ()
      ensures store == map[]
    {
      store := map[];
    }

    method InsertBlock(b: LightBlock, status: Status)
      modifies this
      ensures store == Insert(old(store), b, status)
      ensures old(WellKeyed(store)) ==> WellKeyed(store)
    {
      store := store[b.Height() := StoreEntry(b, status)];
    }

    method UpdateBlock(b: LightBlock, status: Status)
      modifies this
      ensures store == Insert(old(store), b, status)
      ensures old(WellKeyed(store)) ==> WellKeyed(store)
    {
      InsertBlock(b, status);
    }

    method RemoveBlock(height: Height, status: Status)
      modifies this
      ensures store == Remove(old(store), height, status)
      ensures Get(store, height, status) == None
      ensures forall h, st :: (h != height || st != status) ==> Get(store, h, st) == Get(old(store), h, st)
    {
      if height in store && store[height].status == status {
        store := store - {height};
      }
    }
  }
}
