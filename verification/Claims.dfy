/** evm/scripts/buildEligibilitySnapshot.js: how much each address may claim, from its successful bids, its
    game credits and the size of the pool. Amounts are `BigInt`s, addresses are already in normal form. */
module Claims {
  import opened Prelude

  type Address = string

  const SCALE: int := 1_000_000

  /** A bid; `None` is an address that does not parse. */
  datatype Bid = Bid(bidder: Option<Address>, amount: int, failed: bool)

  datatype Player = Player(key: Option<string>, credits: int)

  datatype Link = Link(key: Option<string>, address: Option<Address>)

  datatype Claim = Claim(address: Address, amount: int)

  datatype Error = NoBids | LinksWithoutSnapshot | NoEligibleClaims

  /******* Credits *******/

  type Credits = map<Address, int>

  function CreditOf(m: map<string, int>, key: string): int {
    if key in m then m[key] else 0
  }

  /** What the last snapshot entry for `key` says. */
  function PlayerCredits(players: seq<Player>, key: string): int {
    if players == [] then 0 else
      var last := players[|players| - 1];
      if last.key == Some(key) then last.credits else PlayerCredits(players[..|players| - 1], key)
  }

  predicate Links(l: Link, address: Address) {
    l.key.Some? && l.address == Some(address)
  }

  ghost predicate Linked(links: seq<Link>, address: Address) {
    exists l :: l in links && Links(l, address)
  }

  lemma OneMoreLink(links: seq<Link>, link: Link)
    ensures forall a :: Linked(links + [link], a) <==> Linked(links, a) || Links(link, a)
  {
    forall a | Linked(links, a) || Links(link, a)
      ensures Linked(links + [link], a)
    {
      var l :| (l in links || l == link) && Links(l, a);
      assert l in links + [link];
    }
  }

  /** The credits of every key linked to `address`, added up. */
  function AddressCredits(players: seq<Player>, links: seq<Link>, address: Address): int {
    if links == [] then 0 else
      var last := links[|links| - 1];
      AddressCredits(players, links[..|links| - 1], address)
      + if Links(last, address) then PlayerCredits(players, last.key.value) else 0
  }

  method CreditsByPubkey(players: seq<Player>) returns (byKey: map<string, int>)
    ensures forall key :: CreditOf(byKey, key) == PlayerCredits(players, key)
  {
    byKey := map[];
    for i := 0 to |players|
      invariant forall key :: CreditOf(byKey, key) == PlayerCredits(players[..i], key)
    {
      assert players[..i + 1][..i] == players[..i];
      if players[i].key.Some? {
        byKey := byKey[players[i].key.value := players[i].credits];
      }
    }
    assert players[..|players|] == players;
  }

  /** The snapshot's credits by address; an address is there exactly when some usable link names it. */
  method CreditsByAddress(players: seq<Player>, links: seq<Link>) returns (credits: Credits)
    ensures forall a :: CreditOf(credits, a) == AddressCredits(players, links, a)
    ensures forall a :: a in credits <==> Linked(links, a)
  {
    var byKey := CreditsByPubkey(players);
    credits := map[];
    for i := 0 to |links|
      invariant forall a :: CreditOf(credits, a) == AddressCredits(players, links[..i], a)
      invariant forall a :: a in credits <==> Linked(links[..i], a)
    {
      assert links[..i + 1] == links[..i] + [links[i]] && links[..i + 1][..i] == links[..i];
      OneMoreLink(links[..i], links[i]);
      var link := links[i];
      if link.key.None? || link.address.None? {
        continue;
      }
      var address := link.address.value;
      credits := credits[address := CreditOf(credits, address) + CreditOf(byKey, link.key.value)];
    }
    assert links[..|links|] == links;
  }

  /******* Capping the bids *******/

  /** No cap at all when the credits are empty, otherwise the address's credits. */
  function CapOf(credits: Credits, address: Address): Option<int> {
    if |credits| > 0 then Some(CreditOf(credits, address)) else None
  }

  function Worth(bid: Bid, address: Address): nat {
    if bid.bidder == Some(address) && !bid.failed && bid.amount > 0 then bid.amount else 0
  }

  /** The sum of the address's positive successful bids. */
  function BidTotal(bids: seq<Bid>, address: Address): nat {
    if bids == [] then 0 else BidTotal(bids[..|bids| - 1], address) + Worth(bids[|bids| - 1], address)
  }

  function Capped(cap: Option<int>, total: nat): nat {
    if cap.None? then total else Max(0, Min(cap.value, total))
  }

  function Entitled(credits: Credits, bids: seq<Bid>, address: Address): nat {
    Capped(CapOf(credits, address), BidTotal(bids, address))
  }

  /** The addresses with something to claim, by the first bid that gave them something. */
  function Claimants(credits: Credits, bids: seq<Bid>): seq<Address> {
    if bids == [] then [] else
      var before, last := Claimants(credits, bids[..|bids| - 1]), bids[|bids| - 1];
      if last.bidder.Some? && last.bidder.value !in before && Entitled(credits, bids, last.bidder.value) > 0
      then before + [last.bidder.value]
      else before
  }

  ghost predicate Claimed(credits: Credits, bids: seq<Bid>, claims: seq<Claim>) {
    var who := Claimants(credits, bids);
    && |claims| == |who|
    && forall i :: 0 <= i < |who| ==> claims[i] == Claim(who[i], Entitled(credits, bids, who[i]))
  }

  function IndexOf(claims: seq<Claim>, address: Address): (r: Option<nat>)
    ensures r.Some? ==> r.value < |claims| && claims[r.value].address == address
    ensures r.None? ==> forall c :: c in claims ==> c.address != address
  {
    if claims == [] then None
    else if claims[|claims| - 1].address == address then Some(|claims| - 1)
    else IndexOf(claims[..|claims| - 1], address)
  }

  function AmountOf(claims: seq<Claim>, address: Address): int {
    var i := IndexOf(claims, address);
    if i.Some? then claims[i.value].amount else 0
  }

  ghost predicate Distinct<T(!new)>(s: seq<T>) {
    forall i, j :: 0 <= i < j < |s| ==> s[i] != s[j]
  }

  lemma {:induction false} ClaimantsAreThoseEntitled(credits: Credits, bids: seq<Bid>)
    ensures Distinct(Claimants(credits, bids))
    ensures forall a :: a in Claimants(credits, bids) <==> Entitled(credits, bids, a) > 0
  {
    if bids != [] {
      ClaimantsAreThoseEntitled(credits, bids[..|bids| - 1]);
    }
  }

  /** A claim list says for each address exactly what it is entitled to. */
  lemma ClaimedAmounts(credits: Credits, bids: seq<Bid>, claims: seq<Claim>, address: Address)
    requires Claimed(credits, bids, claims)
    ensures AmountOf(claims, address) == Entitled(credits, bids, address)
    ensures IndexOf(claims, address).Some? <==> Entitled(credits, bids, address) > 0
  {
    var who := Claimants(credits, bids);
    ClaimantsAreThoseEntitled(credits, bids);
    if address in who {
      var i :| 0 <= i < |who| && who[i] == address;
      assert claims[i] in claims;
    }
  }

  /** One bid on top of what is already claimed. */
  lemma OneMoreBid(credits: Credits, bids: seq<Bid>, bid: Bid, a: Address)
    ensures BidTotal(bids + [bid], a) == BidTotal(bids, a) + Worth(bid, a)
    ensures Entitled(credits, bids + [bid], a) ==
              if bid.bidder == Some(a) then Capped(CapOf(credits, a), BidTotal(bids, a) + Worth(bid, a))
              else Entitled(credits, bids, a)
  {
    assert (bids + [bid])[..|bids|] == bids;
  }

  /** What the loop body does for one bid: nothing, raise an entry, or append one. */
  lemma ClaimedStep(credits: Credits, bids: seq<Bid>, bid: Bid, claims: seq<Claim>, after: seq<Claim>)
    requires Claimed(credits, bids, claims)
    requires bid.bidder.None? ==> after == claims
    requires bid.bidder.Some? ==>
               var a := bid.bidder.value;
               var i, amount := IndexOf(claims, a), Entitled(credits, bids + [bid], a);
               after == if i.Some? then claims[i.value := Claim(a, amount)]
                        else if amount > 0 then claims + [Claim(a, amount)]
                        else claims
    ensures Claimed(credits, bids + [bid], after)
  {
    var who, next := Claimants(credits, bids), Claimants(credits, bids + [bid]);
    assert (bids + [bid])[..|bids|] == bids;
    ClaimantsAreThoseEntitled(credits, bids);
    if bid.bidder.Some? {
      ClaimedAmounts(credits, bids, claims, bid.bidder.value);
    }
    forall i | 0 <= i < |next|
      ensures after[i] == Claim(next[i], Entitled(credits, bids + [bid], next[i]))
    {
      OneMoreBid(credits, bids, bid, next[i]);
    }
  }

  method Claimable(bids: seq<Bid>, credits: Credits) returns (claims: seq<Claim>)
    ensures Claimed(credits, bids, claims)
  {
    claims := [];
    for n := 0 to |bids|
      invariant Claimed(credits, bids[..n], claims)
    {
      assert bids[..n + 1] == bids[..n] + [bids[n]];
      claims := ClaimOne(claims, bids[n], credits, bids[..n]);
    }
    assert bids[..|bids|] == bids;
  }

  method ClaimOne(claims: seq<Claim>, bid: Bid, credits: Credits, ghost before: seq<Bid>) returns (after: seq<Claim>)
    requires Claimed(credits, before, claims)
    ensures Claimed(credits, before + [bid], after)
  {
    after := claims;
    if bid.bidder.Some? {
      var address := bid.bidder.value;
      ClaimedAmounts(credits, before, claims, address);
      OneMoreBid(credits, before, bid, address);
      if bid.amount != 0 && !bid.failed {
        var cap := CapOf(credits, address);
        var prev := AmountOf(claims, address);
        if cap.None? || prev < cap.value {
          var eligible := if cap.Some? && bid.amount > cap.value - prev then cap.value - prev else bid.amount;
          if eligible > 0 {
            var i := IndexOf(claims, address);
            after := if i.Some? then claims[i.value := Claim(address, prev + eligible)]
                     else claims + [Claim(address, prev + eligible)];
          }
        }
      }
    }
    ClaimedStep(credits, before, bid, claims, after);
  }

  /******* The order of the bids does not matter *******/

  lemma {:induction false} TotalWithout(bids: seq<Bid>, k: nat, a: Address)
    requires k < |bids|
    ensures BidTotal(bids, a) == BidTotal(bids[..k] + bids[k + 1..], a) + Worth(bids[k], a)
  {
    var n := |bids| - 1;
    var rest := bids[..k] + bids[k + 1..];
    if k == n {
      assert rest == bids[..n];
    } else {
      TotalWithout(bids[..n], k, a);
      assert rest[..n - 1] == bids[..n][..k] + bids[..n][k + 1..] && rest[n - 1] == bids[n];
    }
  }

  lemma WithoutOne(bids: seq<Bid>, k: nat)
    requires k < |bids|
    ensures multiset(bids[..k] + bids[k + 1..]) == multiset(bids) - multiset{bids[k]}
  {
    assert bids == bids[..k] + ([bids[k]] + bids[k + 1..]);
  }

  lemma {:induction false} TotalIgnoresOrder(bids: seq<Bid>, others: seq<Bid>, a: Address)
    requires multiset(bids) == multiset(others)
    ensures BidTotal(bids, a) == BidTotal(others, a)
    decreases |bids|
  {
    if bids == [] {
      assert |multiset(others)| == 0;
    } else {
      var n := |bids| - 1;
      assert bids == bids[..n] + [bids[n]];
      assert bids[n] in multiset(others);
      var k :| 0 <= k < |others| && others[k] == bids[n];
      WithoutOne(bids, n);
      WithoutOne(others, k);
      assert bids[..n] + bids[n + 1..] == bids[..n];
      TotalIgnoresOrder(bids[..n], others[..k] + others[k + 1..], a);
      TotalWithout(others, k, a);
    }
  }

  /** Whatever order the bids come in, each address may claim the same amount: its positive successful bids
      added up, but no more than its cap. */
  lemma ClaimsIgnoreOrder(credits: Credits, bids: seq<Bid>, claims: seq<Claim>, others: seq<Bid>, theirs: seq<Claim>, a: Address)
    requires multiset(bids) == multiset(others)
    requires Claimed(credits, bids, claims) && Claimed(credits, others, theirs)
    ensures AmountOf(claims, a) == AmountOf(theirs, a) == Capped(CapOf(credits, a), BidTotal(bids, a))
  {
    TotalIgnoresOrder(bids, others, a);
    ClaimedAmounts(credits, bids, claims, a);
    ClaimedAmounts(credits, others, theirs, a);
  }

  /******* The pool *******/

  function Sum(claims: seq<Claim>): int {
    if claims == [] then 0 else Sum(claims[..|claims| - 1]) + claims[|claims| - 1].amount
  }

  ghost predicate Positive(claims: seq<Claim>) {
    forall c :: c in claims ==> c.amount > 0
  }

  function Share(amount: int, scale: int): int {
    amount * scale / SCALE
  }

  function Shares(claims: seq<Claim>, scale: int): seq<Claim> {
    seq(|claims|, i requires 0 <= i < |claims| => Claim(claims[i].address, Share(claims[i].amount, scale)))
  }

  function Nonzero(claims: seq<Claim>): seq<Claim> {
    if claims == [] then [] else
      var last := claims[|claims| - 1];
      Nonzero(claims[..|claims| - 1]) + if last.amount > 0 then [last] else []
  }

  predicate Overdrawn(claims: seq<Claim>, poolCap: nat) {
    poolCap > 0 && Sum(claims) > poolCap && Sum(claims) > 0
  }

  function Scaled(claims: seq<Claim>, poolCap: nat): seq<Claim> {
    if Overdrawn(claims, poolCap) then Nonzero(Shares(claims, poolCap * SCALE / Sum(claims))) else claims
  }

  function Final(claims: seq<Claim>, poolCap: nat): Result<seq<Claim>, Error> {
    var scaled := Scaled(claims, poolCap);
    if scaled == [] then Err(NoEligibleClaims) else Ok(scaled)
  }

  /** `part` is `whole` with some elements left out. */
  ghost predicate Subsequence(part: seq<Address>, whole: seq<Address>) {
    if part == [] then true
    else if whole == [] then false
    else if part[|part| - 1] == whole[|whole| - 1] then
      Subsequence(part[..|part| - 1], whole[..|whole| - 1]) || Subsequence(part, whole[..|whole| - 1])
    else Subsequence(part, whole[..|whole| - 1])
  }

  function Addresses(claims: seq<Claim>): seq<Address> {
    seq(|claims|, i requires 0 <= i < |claims| => claims[i].address)
  }

  lemma Longer(part: seq<Address>, whole: seq<Address>, a: Address)
    requires Subsequence(part, whole)
    ensures Subsequence(part, whole + [a]) && Subsequence(part + [a], whole + [a])
  {
    assert (whole + [a])[..|whole|] == whole && (part + [a])[..|part|] == part;
  }

  lemma {:induction false} NonzeroKeepsOrder(claims: seq<Claim>)
    ensures Subsequence(Addresses(Nonzero(claims)), Addresses(claims))
    ensures forall c :: c in Nonzero(claims) <==> c in claims && c.amount > 0
  {
    if claims != [] {
      var front, last := claims[..|claims| - 1], claims[|claims| - 1];
      NonzeroKeepsOrder(front);
      assert claims == front + [last];
      Longer(Addresses(Nonzero(front)), Addresses(front), last.address);
      assert Addresses(claims) == Addresses(front) + [last.address];
      assert last.amount > 0 ==> Addresses(Nonzero(claims)) == Addresses(Nonzero(front)) + [last.address];
      assert last.amount <= 0 ==> Nonzero(claims) == Nonzero(front);
    }
  }

  lemma {:induction false} NothingNonzero(claims: seq<Claim>)
    requires forall i :: 0 <= i < |claims| ==> claims[i].amount <= 0
    ensures Nonzero(claims) == []
  {
    if claims != [] {
      NothingNonzero(claims[..|claims| - 1]);
    }
  }

  lemma {:induction false} NonzeroKeepsSum(claims: seq<Claim>)
    requires forall c :: c in claims ==> c.amount >= 0
    ensures Sum(Nonzero(claims)) == Sum(claims)
  {
    if claims != [] {
      var front, last := claims[..|claims| - 1], claims[|claims| - 1];
      LastIn(claims);
      NonzeroKeepsSum(front);
      NonzeroOneMore(front, last);
      SumOneMore(front, last);
      SumOneMore(Nonzero(front), last);
    }
  }

  lemma LastIn(claims: seq<Claim>)
    requires claims != []
    ensures claims == claims[..|claims| - 1] + [claims[|claims| - 1]]
    ensures claims[|claims| - 1] in claims && forall c :: c in claims[..|claims| - 1] ==> c in claims
  {
  }

  lemma SumOneMore(claims: seq<Claim>, c: Claim)
    ensures Sum(claims + [c]) == Sum(claims) + c.amount && Sum(claims + []) == Sum(claims) && Sum([]) == 0
  {
    assert (claims + [c])[..|claims|] == claims && claims + [] == claims;
  }

  lemma ShareBounds(amount: int, scale: int)
    requires amount >= 0 && 0 <= scale <= SCALE
    ensures 0 <= Share(amount, scale) <= amount
    ensures amount * scale - (SCALE - 1) <= SCALE * Share(amount, scale) <= amount * scale
  {
    assert amount * scale <= amount * SCALE;
  }

  lemma {:induction false} SharesBound(claims: seq<Claim>, scale: int)
    requires Positive(claims) && 0 <= scale <= SCALE
    ensures scale * Sum(claims) - |claims| * (SCALE - 1) <= SCALE * Sum(Shares(claims, scale)) <= scale * Sum(claims)
  {
    if claims != [] {
      var n := |claims| - 1;
      assert claims[n] in claims;
      SharesBound(claims[..n], scale);
      ShareBounds(claims[n].amount, scale);
      assert Shares(claims, scale)[..n] == Shares(claims[..n], scale);
      MulAdds(scale, Sum(claims[..n]), claims[n].amount);
      MulAdds(SCALE - 1, n, 1);
    }
  }

  lemma MulAdds(k: int, a: int, b: int)
    ensures k * (a + b) == k * a + b * k
  {
  }

  lemma CancelFactor(a: int, b: int, factor: int)
    requires factor > 0 && a * factor <= b * factor
    ensures a <= b
  {
  }

  lemma ScaleBounds(poolCap: nat, total: int)
    requires 0 < poolCap < total
    ensures
      var scale := poolCap * SCALE / total;
      0 <= scale <= SCALE && poolCap * SCALE - total < scale * total <= poolCap * SCALE
  {
    var scale := poolCap * SCALE / total;
    assert poolCap * SCALE == total * scale + poolCap * SCALE % total;
    assert scale * total <= SCALE * total;
    CancelFactor(scale, SCALE, total);
  }

  /** An overdrawn pool is never overspent, and its rounding loses less than a millionth of the total
      entitlement plus one unit for each claim. */
  lemma PoolIsSpentButNotOverspent(claims: seq<Claim>, poolCap: nat)
    requires Positive(claims) && Overdrawn(claims, poolCap)
    ensures Sum(Scaled(claims, poolCap)) <= poolCap
    ensures SCALE * (poolCap - Sum(Scaled(claims, poolCap))) < Sum(claims) + SCALE * |claims|
  {
    var scale := poolCap * SCALE / Sum(claims);
    ScaleBounds(poolCap, Sum(claims));
    SharesBound(claims, scale);
    SharesNonnegative(claims, scale);
    NonzeroKeepsSum(Shares(claims, scale));
  }

  lemma SharesNonnegative(claims: seq<Claim>, scale: int)
    requires Positive(claims) && 0 <= scale <= SCALE
    ensures forall c :: c in Shares(claims, scale) ==> c.amount >= 0
  {
    forall i | 0 <= i < |claims|
      ensures Shares(claims, scale)[i].amount >= 0
    {
      assert claims[i] in claims;
      ShareBounds(claims[i].amount, scale);
    }
  }

  lemma MoreGetsNoLess(a: int, b: int, scale: int)
    requires 0 <= a <= b && 0 <= scale
    ensures Share(a, scale) <= Share(b, scale)
  {
    assert a * scale <= b * scale;
  }

  ghost predicate DistinctAddresses(claims: seq<Claim>) {
    forall i, j :: 0 <= i < j < |claims| ==> claims[i].address != claims[j].address
  }

  lemma AmountIs(claims: seq<Claim>, c: Claim)
    requires DistinctAddresses(claims) && c in claims
    ensures AmountOf(claims, c.address) == c.amount
  {
    var i :| 0 <= i < |claims| && claims[i] == c;
  }

  lemma AmountOneMore(front: seq<Claim>, last: Claim, a: Address)
    ensures AmountOf(front + [last], a) == if last.address == a then last.amount else AmountOf(front, a)
  {
    assert (front + [last])[..|front|] == front;
  }

  lemma NonzeroOneMore(front: seq<Claim>, last: Claim)
    ensures Nonzero(front + [last]) == if last.amount > 0 then Nonzero(front) + [last] else Nonzero(front)
  {
    assert (front + [last])[..|front|] == front;
  }

  /** Dropping empty claims changes nobody's amount. */
  lemma {:induction false} NonzeroKeepsAmounts(claims: seq<Claim>, a: Address)
    requires DistinctAddresses(claims) && forall c :: c in claims ==> c.amount >= 0
    ensures AmountOf(Nonzero(claims), a) == AmountOf(claims, a)
  {
    if claims != [] {
      var front, last := claims[..|claims| - 1], claims[|claims| - 1];
      assert claims == front + [last];
      NonzeroKeepsAmounts(front, a);
      AmountOneMore(front, last, a);
      NonzeroOneMore(front, last);
      AmountOneMore(Nonzero(front), last, a);
      if last.address == a {
        OtherAddress(front, a);
      }
    }
  }

  lemma OtherAddress(claims: seq<Claim>, a: Address)
    requires forall c :: c in claims ==> c.address != a
    ensures AmountOf(claims, a) == 0
  {
  }

  /** In an overdrawn pool each claim ends up with its share. */
  lemma ScaledAmount(claims: seq<Claim>, poolCap: nat, c: Claim)
    requires Positive(claims) && DistinctAddresses(claims) && c in claims && Overdrawn(claims, poolCap)
    ensures AmountOf(Scaled(claims, poolCap), c.address) == Share(c.amount, poolCap * SCALE / Sum(claims))
  {
    var scale := poolCap * SCALE / Sum(claims);
    ScaleBounds(poolCap, Sum(claims));
    var shares := Shares(claims, scale);
    SharesNonnegative(claims, scale);
    NonzeroKeepsAmounts(shares, c.address);
    var i :| 0 <= i < |claims| && claims[i] == c;
    assert shares[i] in shares;
    AmountIs(shares, shares[i]);
  }

  /** A smaller claim never ends up with more than a larger one. */
  lemma RankingIsKept(claims: seq<Claim>, poolCap: nat)
    requires Positive(claims) && DistinctAddresses(claims)
    ensures forall a, b :: a in claims && b in claims && a.amount <= b.amount ==>
              AmountOf(Scaled(claims, poolCap), a.address) <= AmountOf(Scaled(claims, poolCap), b.address)
  {
    forall a, b | a in claims && b in claims && a.amount <= b.amount
      ensures AmountOf(Scaled(claims, poolCap), a.address) <= AmountOf(Scaled(claims, poolCap), b.address)
    {
      if Overdrawn(claims, poolCap) {
        ScaleBounds(poolCap, Sum(claims));
        ScaledAmount(claims, poolCap, a);
        ScaledAmount(claims, poolCap, b);
        MoreGetsNoLess(a.amount, b.amount, poolCap * SCALE / Sum(claims));
      } else {
        AmountIs(claims, a);
        AmountIs(claims, b);
      }
    }
  }

  /** Scaling keeps the claims in order, pays nobody more than before, and never ranks a smaller claim
      over a larger one. */
  lemma ScalingIsFair(claims: seq<Claim>, poolCap: nat)
    requires Positive(claims)
    ensures Subsequence(Addresses(Scaled(claims, poolCap)), Addresses(claims))
    ensures forall c :: c in Scaled(claims, poolCap) ==> 0 < c.amount && exists was :: was in claims && Trimmed(was, c)
    ensures DistinctAddresses(claims) ==>
              forall a, b :: a in claims && b in claims && a.amount <= b.amount ==>
                AmountOf(Scaled(claims, poolCap), a.address) <= AmountOf(Scaled(claims, poolCap), b.address)
  {
    if DistinctAddresses(claims) {
      RankingIsKept(claims, poolCap);
    }
    if Overdrawn(claims, poolCap) {
      var scale := poolCap * SCALE / Sum(claims);
      ScaleBounds(poolCap, Sum(claims));
      var shares := Shares(claims, scale);
      NonzeroKeepsOrder(shares);
      assert Addresses(shares) == Addresses(claims);
      forall c | c in Scaled(claims, poolCap)
        ensures 0 < c.amount && exists was :: was in claims && Trimmed(was, c)
      {
        var i :| 0 <= i < |shares| && shares[i] == c;
        assert claims[i] in claims;
        ShareBounds(claims[i].amount, scale);
        assert Trimmed(claims[i], c);
      }
    } else {
      WholeIsSubsequence(Addresses(claims));
      forall c | c in claims
        ensures exists was :: was in claims && Trimmed(was, c)
      {
        assert Trimmed(c, c);
      }
    }
  }

  ghost predicate Trimmed(was: Claim, now: Claim) {
    was.address == now.address && now.amount <= was.amount
  }

  lemma {:induction false} WholeIsSubsequence(s: seq<Address>)
    ensures Subsequence(s, s)
  {
    if s != [] {
      WholeIsSubsequence(s[..|s| - 1]);
    }
  }

  /** The script gives up exactly when nobody is entitled to anything, or when an overdrawn pool rounds every share to zero. */
  lemma GivesUpIff(claims: seq<Claim>, poolCap: nat)
    requires Positive(claims)
    ensures Final(claims, poolCap).Err? <==>
              claims == []
              || (Overdrawn(claims, poolCap)
                  && forall c :: c in claims ==> c.amount * (poolCap * SCALE / Sum(claims)) < SCALE)
  {
    if Overdrawn(claims, poolCap) {
      var scale := poolCap * SCALE / Sum(claims);
      ScaleBounds(poolCap, Sum(claims));
      var shares := Shares(claims, scale);
      NonzeroKeepsOrder(shares);
      forall i | 0 <= i < |claims|
        ensures shares[i].amount > 0 <==> claims[i].amount * scale >= SCALE
      {
        assert claims[i] in claims;
        assert claims[i].amount * scale >= 0;
      }
      if c :| c in claims && c.amount * scale >= SCALE {
        var i :| 0 <= i < |claims| && claims[i] == c;
        assert shares[i] in Nonzero(shares);
      } else {
        forall i | 0 <= i < |claims|
          ensures shares[i].amount <= 0
        {
          assert claims[i] in claims;
        }
        NothingNonzero(shares);
      }
    }
  }

  /** Two claims of one unit and a pool of one: each share is half a unit, so nobody is paid. */
  lemma PoolRoundsToNothing(a: Address, b: Address)
    ensures Overdrawn([Claim(a, 1), Claim(b, 1)], 1) && Final([Claim(a, 1), Claim(b, 1)], 1) == Err(NoEligibleClaims)
  {
    var claims := [Claim(a, 1), Claim(b, 1)];
    assert claims[..1] == [Claim(a, 1)] && Sum([Claim(a, 1)]) == 1;
    assert Sum(claims) == 2;
    GivesUpIff(claims, 1);
  }

  /** The credits of the snapshot and links, the claims they and the bids entitle to, and what becomes of
      those claims. */
  ghost predicate Outcome(
    bids: seq<Bid>, players: seq<Player>, links: seq<Link>, poolCap: nat,
    credits: Credits, entitled: seq<Claim>, r: Result<seq<Claim>, Error>)
  {
    && (forall a :: CreditOf(credits, a) == AddressCredits(players, links, a))
    && (forall a :: a in credits <==> Linked(links, a))
    && Claimed(credits, bids, entitled) && r == Final(entitled, poolCap)
  }

  lemma ClaimedArePositive(credits: Credits, bids: seq<Bid>, claims: seq<Claim>)
    requires Claimed(credits, bids, claims)
    ensures forall c :: c in claims ==> 0 < c.amount == Entitled(credits, bids, c.address)
    ensures DistinctAddresses(claims)
  {
    ClaimantsAreThoseEntitled(credits, bids);
    var who := Claimants(credits, bids);
    forall c | c in claims
      ensures 0 < c.amount == Entitled(credits, bids, c.address)
    {
      var i :| 0 <= i < |claims| && claims[i] == c;
      assert who[i] in who;
    }
  }

  /** End to end: nobody is paid nothing or more than the cap on their bids, a pool is never overspent, and
      nobody entitled to less is paid more. */
  lemma PayoutsAreBounded(
    bids: seq<Bid>, players: seq<Player>, links: seq<Link>, poolCap: nat,
    credits: Credits, entitled: seq<Claim>, r: Result<seq<Claim>, Error>)
    requires Outcome(bids, players, links, poolCap, credits, entitled, r) && r.Ok?
    ensures forall c :: c in r.value ==> 0 < c.amount <= Entitled(credits, bids, c.address)
    ensures poolCap > 0 ==> Sum(r.value) <= poolCap
    ensures forall a, b :: a in entitled && b in entitled && a.amount <= b.amount ==>
              AmountOf(r.value, a.address) <= AmountOf(r.value, b.address)
  {
    ClaimedArePositive(credits, bids, entitled);
    ScalingIsFair(entitled, poolCap);
    forall c | c in r.value
      ensures 0 < c.amount <= Entitled(credits, bids, c.address)
    {
      var was :| was in entitled && Trimmed(was, c);
    }
    if Overdrawn(entitled, poolCap) {
      PoolIsSpentButNotOverspent(entitled, poolCap);
    }
  }

  /** The caps are off, for everybody, exactly when no link is usable: an address then claims all it bid,
      and otherwise no more than the credits of the keys linked to it. */
  lemma CapsOffIff(
    bids: seq<Bid>, players: seq<Player>, links: seq<Link>, poolCap: nat,
    credits: Credits, entitled: seq<Claim>, r: Result<seq<Claim>, Error>, a: Address)
    requires Outcome(bids, players, links, poolCap, credits, entitled, r)
    ensures CapOf(credits, a).None? <==> forall b :: !Linked(links, b)
    ensures AmountOf(entitled, a) ==
            if forall b :: !Linked(links, b) then BidTotal(bids, a)
            else Max(0, Min(AddressCredits(players, links, a), BidTotal(bids, a)))
  {
    ClaimedAmounts(credits, bids, entitled, a);
    if credits != map[] {
      var b :| b in credits;
      assert Linked(links, b);
    }
  }

  function Given<T>(file: Option<seq<T>>): seq<T> {
    if file.Some? then file.value else []
  }

  /** The whole script, from bids, snapshot and links, the last two optional, to the claims that go into
      the tree. */
  method BuildClaims(bids: seq<Bid>, snapshot: Option<seq<Player>>, linksFile: Option<seq<Link>>, poolCap: nat)
    returns (r: Result<seq<Claim>, Error>)
    ensures if bids == [] then r == Err(NoBids)
            else if linksFile.Some? && snapshot.None? then r == Err(LinksWithoutSnapshot)
            else exists credits, entitled :: Outcome(bids, Given(snapshot), Given(linksFile), poolCap, credits, entitled, r)
  {
    if |bids| == 0 {
      return Err(NoBids);
    }
    if linksFile.Some? && snapshot.None? {
      return Err(LinksWithoutSnapshot);
    }
    var players, links := Given(snapshot), Given(linksFile);
    var byAddress := CreditsByAddress(players, links);
    var entitled := Claimable(bids, byAddress);
    var claims := entitled;
    if poolCap > 0 {
      claims := Scaled(claims, poolCap);
    }
    r := if |claims| == 0 then Err(NoEligibleClaims) else Ok(claims);
    assert Outcome(bids, players, links, poolCap, byAddress, entitled, r);
  }

  /******* By position *******/

  /** The last snapshot entry of a key says its credits; a key without one has none. */
  lemma {:induction false} LastEntryCounts(players: seq<Player>, key: string, i: nat)
    requires i < |players| && players[i].key == Some(key) && forall j :: i < j < |players| ==> players[j].key != Some(key)
    ensures PlayerCredits(players, key) == players[i].credits
  {
    var n := |players| - 1;
    if i < n {
      LastEntryCounts(players[..n], key, i);
    }
  }

  lemma {:induction false} NoEntryNoCredits(players: seq<Player>, key: string)
    requires forall i :: 0 <= i < |players| ==> players[i].key != Some(key)
    ensures PlayerCredits(players, key) == 0
  {
    if players != [] {
      NoEntryNoCredits(players[..|players| - 1], key);
    }
  }

  /** Wherever it stands among the links, a usable link adds the credits of its key to its address; another one,
      or one for another address, adds nothing. */
  lemma {:induction false} LinkAdds(players: seq<Player>, before: seq<Link>, link: Link, after: seq<Link>, address: Address)
    ensures AddressCredits(players, before + [link] + after, address) ==
              AddressCredits(players, before + after, address)
              + if link.key.Some? && link.address == Some(address) then PlayerCredits(players, link.key.value) else 0
  {
    if after == [] {
      assert before + [link] + after == before + [link] && before + after == before;
      assert (before + [link])[..|before|] == before;
    } else {
      var n := |after| - 1;
      LinkAdds(players, before, link, after[..n], address);
      assert (before + [link] + after)[..|before| + 1 + n] == before + [link] + after[..n];
      assert (before + after)[..|before| + n] == before + after[..n];
    }
  }

  lemma {:induction false} UnlinkedHasNoCredits(players: seq<Player>, links: seq<Link>, address: Address)
    requires !Linked(links, address)
    ensures AddressCredits(players, links, address) == 0
  {
    if links != [] {
      var n := |links| - 1;
      assert links == links[..n] + [links[n]];
      OneMoreLink(links[..n], links[n]);
      UnlinkedHasNoCredits(players, links[..n], address);
    }
  }

  lemma {:induction false} NoBidNoTotal(bids: seq<Bid>, address: Address)
    requires forall bid :: bid in bids ==> bid.bidder != Some(address) || bid.failed || bid.amount <= 0
    ensures BidTotal(bids, address) == 0
  {
    if bids != [] {
      var n := |bids| - 1;
      assert bids[n] in bids && forall bid :: bid in bids[..n] ==> bid in bids;
      NoBidNoTotal(bids[..n], address);
    }
  }

  /** Wherever it stands among the bids, a bid that did not fail adds its positive amount to its bidder; a failed
      one, one of nothing or less, or somebody else's adds nothing. */
  lemma {:induction false} BidAdds(before: seq<Bid>, bid: Bid, after: seq<Bid>, address: Address)
    ensures BidTotal(before + [bid] + after, address) ==
              BidTotal(before + after, address)
              + if bid.bidder == Some(address) && !bid.failed && bid.amount > 0 then bid.amount else 0
  {
    if after == [] {
      assert before + [bid] + after == before + [bid] && before + after == before;
      assert (before + [bid])[..|before|] == before;
    } else {
      var n := |after| - 1;
      BidAdds(before, bid, after[..n], address);
      assert (before + [bid] + after)[..|before| + 1 + n] == before + [bid] + after[..n];
      assert (before + after)[..|before| + n] == before + after[..n];
    }
  }

  /** Bid `k` is the address's and the first that entitles it to something. */
  ghost predicate FirstEntitled(credits: Credits, bids: seq<Bid>, a: Address, k: nat) {
    k < |bids| && bids[k].bidder == Some(a) && Entitled(credits, bids[..k], a) == 0 < Entitled(credits, bids[..k + 1], a)
  }

  lemma FirstStays(credits: Credits, bids: seq<Bid>, n: nat, a: Address, k: nat)
    requires n <= |bids| && FirstEntitled(credits, bids[..n], a, k)
    ensures FirstEntitled(credits, bids, a, k)
  {
    assert bids[..n][..k] == bids[..k] && bids[..n][..k + 1] == bids[..k + 1];
  }

  /** The claimants stand in the order of the bids that first entitled them to something. */
  lemma {:induction false} ClaimantsInOrder(credits: Credits, bids: seq<Bid>) returns (firsts: seq<nat>)
    ensures |firsts| == |Claimants(credits, bids)|
    ensures forall j :: 0 <= j < |firsts| ==> FirstEntitled(credits, bids, Claimants(credits, bids)[j], firsts[j])
    ensures forall i, j :: 0 <= i < j < |firsts| ==> firsts[i] < firsts[j]
  {
    if bids == [] {
      firsts := [];
    } else {
      var n := |bids| - 1;
      var front := Claimants(credits, bids[..n]);
      firsts := ClaimantsInOrder(credits, bids[..n]);
      forall j | 0 <= j < |front|
        ensures FirstEntitled(credits, bids, front[j], firsts[j])
      {
        FirstStays(credits, bids, n, front[j], firsts[j]);
      }
      assert forall j :: 0 <= j < |firsts| ==> firsts[j] < n;
      if Claimants(credits, bids) != front {
        NewClaimant(credits, bids, n);
        firsts := firsts + [n];
      }
    }
  }

  lemma NewClaimant(credits: Credits, bids: seq<Bid>, n: nat)
    requires |bids| == n + 1 && Claimants(credits, bids) != Claimants(credits, bids[..n])
    ensures bids[n].bidder.Some? && Claimants(credits, bids) == Claimants(credits, bids[..n]) + [bids[n].bidder.value]
    ensures FirstEntitled(credits, bids, bids[n].bidder.value, n)
  {
    ClaimantsAreThoseEntitled(credits, bids[..n]);
    assert bids[..n + 1] == bids;
  }

  /** In an overdrawn pool a claim is paid its product with the pool over the total, both cut off at six digits;
      otherwise it is paid whole. */
  lemma PaidExactly(claims: seq<Claim>, poolCap: nat, c: Claim) returns (scale: int)
    requires Positive(claims) && DistinctAddresses(claims) && c in claims
    ensures poolCap == 0 || Sum(claims) <= poolCap ==> AmountOf(Scaled(claims, poolCap), c.address) == c.amount
    ensures poolCap > 0 && Sum(claims) > poolCap ==>
              var paid := AmountOf(Scaled(claims, poolCap), c.address);
              && scale * Sum(claims) <= poolCap * 1_000_000 < (scale + 1) * Sum(claims)
              && paid * 1_000_000 <= c.amount * scale < (paid + 1) * 1_000_000
  {
    scale := 0;
    if Overdrawn(claims, poolCap) {
      scale := poolCap * SCALE / Sum(claims);
      ScaleIs(poolCap, Sum(claims));
      ScaledAmount(claims, poolCap, c);
      ShareIs(c.amount, scale);
    } else {
      AmountIs(claims, c);
    }
  }

  lemma ScaleIs(poolCap: nat, total: int)
    requires total > 0
    ensures poolCap * SCALE / total * total <= poolCap * SCALE < (poolCap * SCALE / total + 1) * total
  {
  }

  lemma ShareIs(amount: int, scale: int)
    ensures Share(amount, scale) * 1_000_000 <= amount * scale < (Share(amount, scale) + 1) * 1_000_000
  {
  }
}
