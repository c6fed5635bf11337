/**
 The contract's storage and methods: the OpenZeppelin ERC-721 parts (owner map, balances, approvals,
 enumeration, URIs) and Knowtfolio's own counter and article map. Every method is proved to make the
 step `Ledger` prescribes, and the enumeration to list each holder's tokens exactly once.
 */
module Contract {
  import opened Basics
  import opened Hex
  import opened Ledger

  const SCHEME := "https://"
  const HOST := "knowtfolio.com"
  const BASE_URI := SCHEME + HOST + "/nfts/"

  // ---------- enumeration by owner ----------

  /** `_ownedTokens` (per owner, the array of its tokens) and `_ownedTokensIndex` (token to position). */
  datatype Enumeration = Enumeration(owned: map<Address, seq<nat>>, index: map<nat, nat>)

  function Balance(balances: map<Address, nat>, u: Address): nat {
    if u in balances then balances[u] else 0
  }

  function Held(owned: map<Address, seq<nat>>, u: Address): seq<nat> {
    if u in owned then owned[u] else []
  }

  /** The array holds tokens of `u`, each at its recorded position. */
  ghost predicate ArrayOf(tokens: seq<nat>, u: Address, owners: map<nat, Address>, index: map<nat, nat>) {
    forall i: nat | i < |tokens| ::
      (tokens[i] in owners && owners[tokens[i]] == u && tokens[i] in index && index[tokens[i]] == i)
  }

  /** The token stands in its owner's array, at its recorded position. */
  ghost predicate InPlace(t: nat, e: Enumeration, owners: map<nat, Address>)
    requires t in owners
  {
    t in e.index && e.index[t] < |Held(e.owned, owners[t])| && Held(e.owned, owners[t])[e.index[t]] == t
  }

  /** Every owner's array lists exactly that owner's tokens, and has the length of its balance. */
  ghost predicate Lists(e: Enumeration, owners: map<nat, Address>, balances: map<Address, nat>) {
    && (forall t | t in owners :: InPlace(t, e, owners))
    && (forall u: Address :: ArrayOf(Held(e.owned, u), u, owners, e.index))
    && (forall u: Address :: |Held(e.owned, u)| == Balance(balances, u))
  }

  function Added(e: Enumeration, u: Address, id: nat): Enumeration {
    Enumeration(e.owned[u := Held(e.owned, u) + [id]], e.index[id := |Held(e.owned, u)|])
  }

  /** The last token of the owner takes the place of the removed one. */
  function Removed(e: Enumeration, u: Address, id: nat): Enumeration
    requires id in e.index && e.index[id] < |Held(e.owned, u)|
  {
    var tokens := Held(e.owned, u);
    var last := |tokens| - 1;
    var hole := e.index[id];
    Enumeration(e.owned[u := tokens[hole := tokens[last]][..last]], e.index[tokens[last] := hole] - {id})
  }

  lemma AddedLists(e: Enumeration, owners: map<nat, Address>, balances: map<Address, nat>, u: Address, id: nat)
    requires Lists(e, owners, balances) && id !in owners
    ensures Lists(Added(e, u, id), owners[id := u], Credited(balances, u))
  {
    var f := Added(e, u, id);
    var owners' := owners[id := u];
    forall t | t in owners' ensures InPlace(t, f, owners') {
      if t != id {
        assert InPlace(t, e, owners);
      }
    }
    forall v: Address ensures ArrayOf(Held(f.owned, v), v, owners', f.index) {
      assert ArrayOf(Held(e.owned, v), v, owners, e.index);
    }
    forall v: Address ensures |Held(f.owned, v)| == Balance(Credited(balances, u), v) {
      assert |Held(e.owned, v)| == Balance(balances, v);
    }
  }

  lemma RemovedLists(e: Enumeration, owners: map<nat, Address>, balances: map<Address, nat>, id: nat)
    requires Lists(e, owners, balances) && id in owners
    ensures InPlace(id, e, owners) && Balance(balances, owners[id]) >= 1
    ensures Lists(Removed(e, owners[id], id), owners - {id}, Debited(balances, owners[id]))
  {
    var u := owners[id];
    assert InPlace(id, e, owners) && |Held(e.owned, u)| == Balance(balances, u);
    var f := Removed(e, u, id);
    forall t | t in owners - {id} ensures InPlace(t, f, owners - {id}) {
      assert InPlace(t, e, owners);
      assert ArrayOf(Held(e.owned, u), u, owners, e.index);
    }
    forall v: Address ensures ArrayOf(Held(f.owned, v), v, owners - {id}, f.index) {
      assert ArrayOf(Held(e.owned, v), v, owners, e.index) && ArrayOf(Held(e.owned, u), u, owners, e.index);
    }
    forall v: Address ensures |Held(f.owned, v)| == Balance(Debited(balances, u), v) {
      assert |Held(e.owned, v)| == Balance(balances, v);
    }
  }

  function Credited(balances: map<Address, nat>, u: Address): map<Address, nat> {
    balances[u := Balance(balances, u) + 1]
  }

  function Debited(balances: map<Address, nat>, u: Address): map<Address, nat> {
    balances[u := if Balance(balances, u) >= 1 then Balance(balances, u) - 1 else 0]
  }

  /** Removing a token from one array and adding it to another is what a transfer needs. */
  lemma MovedLists(e: Enumeration, owners: map<nat, Address>, balances: map<Address, nat>, to: Address, id: nat)
    requires Lists(e, owners, balances) && id in owners
    ensures InPlace(id, e, owners)
    ensures to != owners[id] ==>
      Lists(Added(Removed(e, owners[id], id), to, id), owners[id := to], Credited(Debited(balances, owners[id]), to))
  {
    RemovedLists(e, owners, balances, id);
    var from := owners[id];
    var rest := Removed(e, from, id);
    AddedLists(rest, owners - {id}, Debited(balances, from), to, id);
    assert (owners - {id})[id := to] == owners[id := to];
  }

  lemma LengthIsBalance(e: Enumeration, owners: map<nat, Address>, balances: map<Address, nat>, u: Address)
    requires Lists(e, owners, balances)
    ensures |Held(e.owned, u)| == Balance(balances, u)
  {
  }

  lemma SelfTransfer(e: Enumeration, owners: map<nat, Address>, balances: map<Address, nat>, id: nat)
    requires Lists(e, owners, balances) && id in owners
    ensures Lists(e, owners[id := owners[id]], Credited(Debited(balances, owners[id]), owners[id]))
  {
    var u := owners[id];
    assert InPlace(id, e, owners) && |Held(e.owned, u)| == Balance(balances, u);
    assert owners[id := u] == owners;
    forall v: Address ensures |Held(e.owned, v)| == Balance(Credited(Debited(balances, u), u), v) {
      assert |Held(e.owned, v)| == Balance(balances, v);
    }
  }

  /** A balance is the number of tokens owned. */
  lemma BalanceCounts(e: Enumeration, owners: map<nat, Address>, balances: map<Address, nat>, u: Address)
    requires Lists(e, owners, balances)
    ensures |set t | t in owners && owners[t] == u| == Balance(balances, u)
  {
    var tokens := Held(e.owned, u);
    assert ArrayOf(tokens, u, owners, e.index) && |tokens| == Balance(balances, u);
    SizeOfDistinct(tokens);
    assert Elements(tokens) == set t | t in owners && owners[t] == u by {
      forall t | t in owners && owners[t] == u ensures t in tokens {
        assert InPlace(t, e, owners);
      }
    }
  }

  function Elements(xs: seq<nat>): set<nat> {
    set x | x in xs
  }

  lemma {:induction false} SizeOfDistinct(xs: seq<nat>)
    requires Distinct(xs)
    ensures |Elements(xs)| == |xs|
  {
    if xs == [] {
      assert Elements(xs) == {};
    } else {
      SizeOfDistinct(xs[1..]);
      assert xs == [xs[0]] + xs[1..];
      assert Elements(xs) == Elements(xs[1..]) + {xs[0]};
    }
  }

  // ---------- token URIs ----------

  function Decimal(n: nat): string {
    if n < 10 then [LOWER[n]] else Decimal(n / 10) + [LOWER[n % 10]]
  }

  /** `tokenURI`: base and stored article, or base and token number when nothing is stored. */
  function TokenURIOf(uri: map<nat, string>, id: nat): string {
    if id in uri && uri[id] != "" then BASE_URI + uri[id] else BASE_URI + Decimal(id)
  }

  // ---------- the contract ----------

  /** The owner map is that of a sound ledger, and the arrays and balances agree with it. */
  ghost predicate Laid(v: Ledger, e: Enumeration, balances: map<Address, nat>) {
    Issuance(v) && Lists(e, v.owner, balances)
  }

  /** The part of the storage a mint changes before it can be refused. */
  datatype Storage = Saved(
    counter: nat, owners: map<nat, Address>, balances: map<Address, nat>, approvals: map<nat, Address>,
    operators: set<(Address, Address)>, owned: map<Address, seq<nat>>, index: map<nat, nat>)

  lemma HolderHasBalance(v: Ledger, e: Enumeration, balances: map<Address, nat>, id: nat)
    requires Laid(v, e, balances) && id in v.owner
    ensures Lists(e, v.owner, balances) && v.owner[id] != ZERO_ADDRESS && Balance(balances, v.owner[id]) >= 1
  {
    RemovedLists(e, v.owner, balances, id);
  }

  lemma TransferOutcome(l: Ledger, sender: Address, from: Address, to: Address, id: nat)
    requires Issuance(l)
    ensures var m := Apply(l, TransferFrom(sender, from, to, id));
      && Issuance(m)
      && m == (if id in l.owner && l.owner[id] == from && to != ZERO_ADDRESS
                  && (sender == from || (id in l.approved && l.approved[id] == sender) || (from, sender) in l.operators)
               then l.(owner := l.owner[id := to], approved := l.approved - {id}, moved := l.moved + {id})
               else l)
  {
    CallMovesOnly(l, TransferFrom(sender, from, to, id));
  }

  lemma MintIsSound(l: Ledger, recipient: Address, article: string, calls: seq<Call>)
    requires Consistent(l) && MintAllowed(l, recipient, article)
    ensures l.counter + 1 !in l.owner && Issuance(Issued(l, recipient))
    ensures Mint(l, recipient, article, calls, true) == Named(ApplyAll(Issued(l, recipient), calls), l.counter + 1, article)
    ensures Consistent(Mint(l, recipient, article, calls, true))
    ensures Mint(l, recipient, article, calls, true).tokenIdOf == l.tokenIdOf[article := l.counter + 1]
    ensures Mint(l, recipient, article, calls, true).counter == l.counter + 1
  {
    MintKeepsInvariant(l, recipient, article, calls, true);
    IssuedKeeps(l, recipient);
  }

  lemma MintFollowsCalls(l: Ledger, recipient: Address, article: string, calls: seq<Call>)
    requires Consistent(l) && MintAllowed(l, recipient, article)
    ensures Mint(l, recipient, article, calls, true) == ApplyAll(Mint(l, recipient, article, [], true), calls)
    ensures calls == [] ==> Mint(l, recipient, article, calls, true).owner == l.owner[l.counter + 1 := recipient]
    ensures |calls| == 1 && calls[0].TransferFrom? && calls[0].to != ZERO_ADDRESS
      && calls[0] == TransferFrom(recipient, recipient, calls[0].to, l.counter + 1)
      ==> OwnerOfArticle(Mint(l, recipient, article, calls, true), article) == calls[0].to
  {
    CallsActAsAfterMint(l, recipient, article, calls);
    assert ApplyAll(Issued(l, recipient), []) == Issued(l, recipient);
    hide Mint, ApplyAll, Consistent;
    if |calls| == 1 && calls[0].TransferFrom? && calls[0].to != ZERO_ADDRESS {
      ForwardedInsideMint(l, recipient, article, calls[0].to);
      assert calls == [calls[0]];
    }
  }

  class Knowtfolio {
    const admin: Address
    var counter: nat
    var tokenIdOf: map<string, nat>
    var tokenURIs: map<nat, string>
    var owners: map<nat, Address>
    var balances: map<Address, nat>
    var tokenApprovals: map<nat, Address>
    var operatorApprovals: set<(Address, Address)>
    var ownedTokens: map<Address, seq<nat>>
    var ownedTokensIndex: map<nat, nat>
    /** Tokens named by a Transfer event that was not a mint. */
    ghost var moved: set<nat>

    /** What the contract promises, forgetting how it is stored. */
    ghost function View(): Ledger
      reads this
    {
      Ledger(counter, owners, tokenApprovals, operatorApprovals, tokenURIs, tokenIdOf, moved)
    }

    ghost function Enum(): Enumeration
      reads this
    {
      Enumeration(ownedTokens, ownedTokensIndex)
    }

    /** Holds at every moment another contract can observe, including inside `_safeMint`. */
    ghost predicate Stored()
      reads this
    {
      Laid(View(), Enum(), balances)
    }

    ghost predicate Valid()
      reads this
    {
      Stored() && Naming(View(), counter)
    }

    constructor (admin: Address)
      ensures Valid() && View() == EMPTY && this.admin == admin
    {
      this.admin := admin;
      counter, tokenIdOf, tokenURIs := 0, map[], map[];
      owners, balances, tokenApprovals, operatorApprovals := map[], map[], map[], {};
      ownedTokens, ownedTokensIndex := map[], map[];
      moved := {};
    }

    // ----- the before-transfer hook -----

    method AddTokenToOwnerEnumeration(to: Address, id: nat)
      requires |Held(ownedTokens, to)| == Balance(balances, to)
      modifies this`ownedTokens, this`ownedTokensIndex
      ensures Enum() == Added(old(Enum()), to, id)
    {
      var length := Balance(balances, to);
      ownedTokens := ownedTokens[to := Held(ownedTokens, to) + [id]];
      ownedTokensIndex := ownedTokensIndex[id := length];
    }

    method RemoveTokenFromOwnerEnumeration(from: Address, id: nat)
      requires |Held(ownedTokens, from)| == Balance(balances, from)
      requires id in owners && owners[id] == from && InPlace(id, Enum(), owners)
      modifies this`ownedTokens, this`ownedTokensIndex
      ensures Enum() == Removed(old(Enum()), from, id)
    {
      var lastTokenIndex := Balance(balances, from) - 1;
      var tokenIndex := ownedTokensIndex[id];
      var tokens := Held(ownedTokens, from);
      if tokenIndex != lastTokenIndex {
        var lastTokenId := tokens[lastTokenIndex];
        tokens := tokens[tokenIndex := lastTokenId];
        ownedTokensIndex := ownedTokensIndex[lastTokenId := tokenIndex];
      }
      ownedTokensIndex := ownedTokensIndex - {id};
      ownedTokens := ownedTokens[from := tokens[..lastTokenIndex]];
      assert Enum().index == Removed(old(Enum()), from, id).index;
      assert tokens[..lastTokenIndex] == Removed(old(Enum()), from, id).owned[from];
    }

    /** `_beforeTokenTransfer`, which runs before owner and balances change. There is no burning. */
    method BeforeTokenTransfer(from: Address, to: Address, id: nat)
      requires Lists(Enum(), owners, balances) && to != ZERO_ADDRESS
      requires from == ZERO_ADDRESS ==> id !in owners
      requires from != ZERO_ADDRESS ==> id in owners && owners[id] == from
      modifies this`ownedTokens, this`ownedTokensIndex
      ensures Lists(Enum(), owners[id := to],
        Credited(if from == ZERO_ADDRESS then balances else Debited(balances, from), to))
    {
      LengthIsBalance(Enum(), owners, balances, to);
      if from == ZERO_ADDRESS {
        AddedLists(Enum(), owners, balances, to, id);
        hide Lists, Added;
        AddTokenToOwnerEnumeration(to, id);
      } else if from != to {
        MovedLists(Enum(), owners, balances, to, id);
        LengthIsBalance(Enum(), owners, balances, from);
        hide Lists, InPlace;
        RemoveTokenFromOwnerEnumeration(from, id);
        AddTokenToOwnerEnumeration(to, id);
      } else {
        SelfTransfer(Enum(), owners, balances, id);
      }
    }

    /**
     `_safeMint`: the recipient's contract is called when the token has an owner but no article yet.
     `calls` are the public calls it makes.
     */
    method SafeMint(to: Address, id: nat, calls: seq<Call>)
      requires id == counter && id >= 1 && to != ZERO_ADDRESS && id !in owners
      requires Lists(Enum(), owners, balances)
      requires Issuance(Issued(View().(counter := id - 1), to))
      modifies this`ownedTokens, this`ownedTokensIndex, this`owners, this`balances,
        this`tokenApprovals, this`operatorApprovals, this`moved
      ensures Stored()
      ensures View() == ApplyAll(Issued(old(View()).(counter := id - 1), to), calls)
    {
      hide Lists, Issuance;
      BeforeTokenTransfer(ZERO_ADDRESS, to, id);
      balances := balances[to := Balance(balances, to) + 1];
      owners := owners[id := to];
      RunReceiver(calls);
    }

    // ----- public calls of EIP-721 -----

    predicate IsApprovedOrOwner(sender: Address, id: nat)
      requires id in owners
      reads this
    {
      || sender == owners[id]
      || (id in tokenApprovals && tokenApprovals[id] == sender)
      || (owners[id], sender) in operatorApprovals
    }

    method MoveBalance(from: Address, to: Address)
      requires Balance(balances, from) >= 1
      modifies this`balances
      ensures balances == Credited(Debited(old(balances), from), to)
    {
      balances := balances[from := Balance(balances, from) - 1];
      balances := balances[to := Balance(balances, to) + 1];
    }

    /** `_transfer` */
    method MoveToken(from: Address, to: Address, id: nat)
      requires Stored() && id in owners && owners[id] == from && to != ZERO_ADDRESS
      modifies this`ownedTokens, this`ownedTokensIndex, this`owners, this`balances, this`tokenApprovals, this`moved
      ensures owners == old(owners)[id := to] && tokenApprovals == old(tokenApprovals) - {id}
      ensures moved == old(moved) + {id}
      ensures Lists(Enum(), owners, balances)
    {
      HolderHasBalance(View(), Enum(), balances, id);
      hide Laid, Lists, Balance, Debited, Credited;
      BeforeTokenTransfer(from, to, id);
      tokenApprovals := tokenApprovals - {id};
      MoveBalance(from, to);
      owners := owners[id := to];
      moved := moved + {id};
    }

    /** `transferFrom`, and `safeTransferFrom` up to the call of the receiver. */
    method TransferFrom(sender: Address, from: Address, to: Address, id: nat) returns (ok: bool)
      requires Stored()
      modifies this`ownedTokens, this`ownedTokensIndex, this`owners, this`balances, this`tokenApprovals, this`moved
      ensures Stored()
      ensures View() == Apply(old(View()), Call.TransferFrom(sender, from, to, id))
      ensures ok <==> old(id in owners && owners[id] == from && to != ZERO_ADDRESS
        && (sender == from || (id in tokenApprovals && tokenApprovals[id] == sender) || (from, sender) in operatorApprovals))
      ensures owners == if ok then old(owners)[id := to] else old(owners)
      ensures tokenApprovals == if ok then old(tokenApprovals) - {id} else old(tokenApprovals)
    {
      TransferOutcome(View(), sender, from, to, id);
      hide Lists, Issuance, Apply;
      if id !in owners || !IsApprovedOrOwner(sender, id) || owners[id] != from || to == ZERO_ADDRESS {
        return false;
      }
      MoveToken(from, to, id);
      return true;
    }

    method Approve(sender: Address, to: Address, id: nat) returns (ok: bool)
      requires Stored()
      modifies this`tokenApprovals
      ensures Stored()
      ensures View() == Apply(old(View()), Call.Approve(sender, to, id))
      ensures ok <==> id in owners && to != owners[id] && (sender == owners[id] || (owners[id], sender) in operatorApprovals)
      ensures !ok ==> tokenApprovals == old(tokenApprovals)
      ensures ok && to == ZERO_ADDRESS ==> tokenApprovals == old(tokenApprovals) - {id}
      ensures ok && to != ZERO_ADDRESS ==> tokenApprovals == old(tokenApprovals)[id := to]
    {
      if id !in owners || to == owners[id] || (sender != owners[id] && (owners[id], sender) !in operatorApprovals) {
        return false;
      }
      tokenApprovals := if to == ZERO_ADDRESS then tokenApprovals - {id} else tokenApprovals[id := to];
      return true;
    }

    method SetApprovalForAll(sender: Address, operator: Address, on: bool) returns (ok: bool)
      requires Stored()
      modifies this`operatorApprovals
      ensures Stored()
      ensures View() == Apply(old(View()), Call.SetApprovalForAll(sender, operator, on))
      ensures ok <==> sender != operator
      ensures ok ==> ((sender, operator) in operatorApprovals <==> on)
      ensures forall p | p != (sender, operator) || !ok :: p in operatorApprovals <==> p in old(operatorApprovals)
    {
      if sender == operator {
        return false;
      }
      operatorApprovals := if on then operatorApprovals + {(sender, operator)} else operatorApprovals - {(sender, operator)};
      return true;
    }

    method Perform(c: Call)
      requires Stored()
      modifies this`ownedTokens, this`ownedTokensIndex, this`owners, this`balances,
        this`tokenApprovals, this`operatorApprovals, this`moved
      ensures Stored() && View() == Apply(old(View()), c)
    {
      match c {
        case TransferFrom(sender, from, to, id) =>
          var _ := TransferFrom(sender, from, to, id);
        case Approve(sender, to, id) =>
          var _ := Approve(sender, to, id);
        case SetApprovalForAll(sender, operator, on) =>
          var _ := SetApprovalForAll(sender, operator, on);
      }
    }

    /** What a receiver does when `_safeMint` calls it: any public calls, one after another. */
    method RunReceiver(calls: seq<Call>)
      requires Stored()
      modifies this`ownedTokens, this`ownedTokensIndex, this`owners, this`balances,
        this`tokenApprovals, this`operatorApprovals, this`moved
      ensures Stored() && View() == ApplyAll(old(View()), calls)
    {
      for i := 0 to |calls|
        invariant Stored()
        invariant ApplyAll(View(), calls[i..]) == ApplyAll(old(View()), calls)
      {
        assert calls[i..][0] == calls[i] && calls[i..][1..] == calls[i + 1..];
        Perform(calls[i]);
      }
    }

    // ----- Knowtfolio's own functions -----

    /** `mintNFT`; a revert, also one by the receiver, restores the whole storage. */
    method MintNFT(sender: Address, recipient: Address, articleId: string, calls: seq<Call>, accepts: bool)
        returns (r: Option<nat>)
      requires Valid()
      modifies this
      ensures Valid()
      ensures View() == if sender == admin then Mint(old(View()), recipient, articleId, calls, accepts) else old(View())
      ensures r == if sender == admin && MintAllowed(old(View()), recipient, articleId) && accepts
        then Some(TokenId(View(), articleId)) else None
      ensures r.Some? ==> View() == ApplyAll(Mint(old(View()), recipient, articleId, [], true), calls)
      ensures r.Some? ==> r.value == old(counter) + 1 == counter && tokenIdOf == old(tokenIdOf)[articleId := counter]
      ensures r.Some? && calls == [] ==> owners == old(owners)[counter := recipient]
      ensures r.Some? && |calls| == 1 && calls[0].TransferFrom? && calls[0].to != ZERO_ADDRESS
        && calls[0] == Call.TransferFrom(recipient, recipient, calls[0].to, counter)
        ==> OwnerOfArticle(View(), articleId) == calls[0].to
    {
      if sender != admin {
        return None;
      }
      if !(|articleId| > 0 && GetTokenId(articleId) == 0) || recipient == ZERO_ADDRESS {
        return None;
      }
      MintIsSound(View(), recipient, articleId, calls);
      MintFollowsCalls(View(), recipient, articleId, calls);
      hide Issuance, Lists, Naming, Named, Issued, ApplyAll, OwnerOfArticle;
      r := MintChecked(recipient, articleId, calls, accepts);
    }

    function Storage(): Storage
      reads this
    {
      Saved(counter, owners, balances, tokenApprovals, operatorApprovals, ownedTokens, ownedTokensIndex)
    }

    /** A revert puts back what the transaction has changed so far. */
    method Revert(before: Storage, ghost moved0: set<nat>)
      modifies this`counter, this`owners, this`balances, this`tokenApprovals, this`operatorApprovals, this`ownedTokens,
        this`ownedTokensIndex, this`moved
      ensures Storage() == before && moved == moved0
    {
      counter, owners, balances := before.counter, before.owners, before.balances;
      tokenApprovals, operatorApprovals := before.approvals, before.operators;
      ownedTokens, ownedTokensIndex := before.owned, before.index;
      moved := moved0;
    }

    /** The rest of `mintNFT` once its requirements are met. */
    method MintChecked(recipient: Address, articleId: string, calls: seq<Call>, accepts: bool) returns (r: Option<nat>)
      requires Valid() && recipient != ZERO_ADDRESS
      requires counter + 1 !in owners && Issuance(Issued(View(), recipient))
      requires Consistent(Named(ApplyAll(Issued(View(), recipient), calls), counter + 1, articleId))
      modifies this
      ensures Valid()
      ensures accepts ==> View() == Named(ApplyAll(Issued(old(View()), recipient), calls), old(counter) + 1, articleId)
      ensures accepts ==> r == Some(old(counter) + 1)
      ensures !accepts ==> View() == old(View()) && r == None
    {
      hide Lists, Naming, ApplyAll, Issuance;
      var storage := Storage();
      ghost var moved0 := moved;

      counter := counter + 1;
      var newItemId := counter;
      SafeMint(recipient, newItemId, calls);
      if !accepts {
        Revert(storage, moved0);
        return None;
      }
      RecordArticle(newItemId, articleId);
      return Some(newItemId);
    }

    /** `_setTokenURI` and the write to `tokenIdOf` */
    method RecordArticle(id: nat, articleId: string)
      requires Stored() && Consistent(Named(View(), id, articleId))
      modifies this`tokenURIs, this`tokenIdOf
      ensures Valid() && View() == Named(old(View()), id, articleId)
    {
      hide Lists, Issuance, Naming;
      tokenURIs := tokenURIs[id := articleId];
      tokenIdOf := tokenIdOf[articleId := id];
    }

    function GetTokenId(articleId: string): nat
      reads this
    {
      if articleId in tokenIdOf then tokenIdOf[articleId] else 0
    }

    method GetOwnerOfArticle(articleId: string) returns (r: Address)
      requires Valid()
      ensures r == OwnerOfArticle(View(), articleId)
      ensures r == ZERO_ADDRESS <==> !Minted(View(), articleId)
      ensures forall t | t in tokenURIs && tokenURIs[t] == articleId :: t in owners && r == owners[t]
    {
      var tokenId := GetTokenId(articleId);
      if tokenId == 0 {
        return ZERO_ADDRESS;
      }
      return owners[tokenId];
    }

    /**
     `getArticleIdsOwnedBy`: base URI and article occur exactly once if the user owns the article's
     token and not at all otherwise; nothing else occurs; the length is the number of tokens owned.
     */
    method GetArticleIdsOwnedBy(user: Address) returns (uris: seq<string>)
      requires Valid() && user != ZERO_ADDRESS
      ensures forall a :: multiset(uris)[BASE_URI + a] == if OwnerOfArticle(View(), a) == user then 1 else 0
      ensures forall s | s in uris :: BASE_URI <= s
      ensures |uris| == |TokensOf(View(), user)|
    {
      assert |Held(ownedTokens, user)| == Balance(balances, user);
      var numberOfTokens := Balance(balances, user);
      var articleIds := new string[numberOfTokens];
      for index := 0 to numberOfTokens
        invariant forall k: nat | k < index :: articleIds[k] == TokenURIOf(tokenURIs, Held(ownedTokens, user)[k])
      {
        articleIds[index] := TokenURIOf(tokenURIs, Held(ownedTokens, user)[index]);
      }
      uris := articleIds[..];
      ListedExactly(user, uris);
    }

    // ----- why the list is right -----

    /** `uris` are the token URIs along the user's array. */
    ghost predicate Lines(user: Address, uris: seq<string>)
      reads this
    {
      && |uris| == |Held(ownedTokens, user)|
      && forall k: nat | k < |uris| :: uris[k] == TokenURIOf(tokenURIs, Held(ownedTokens, user)[k])
    }

    lemma TokenURIIsArticle(t: nat)
      requires Valid() && t in owners
      ensures t in tokenURIs && TokenURIOf(tokenURIs, t) == BASE_URI + tokenURIs[t]
      ensures tokenURIs[t] in tokenIdOf && tokenIdOf[tokenURIs[t]] == t
    {
    }

    lemma ListedExactly(user: Address, uris: seq<string>)
      requires Valid() && user != ZERO_ADDRESS
      requires Lines(user, uris)
      ensures forall a :: multiset(uris)[BASE_URI + a] == if OwnerOfArticle(View(), a) == user then 1 else 0
      ensures forall s | s in uris :: BASE_URI <= s
      ensures |uris| == |TokensOf(View(), user)|
    {
      assert ArrayOf(Held(ownedTokens, user), user, owners, ownedTokensIndex);
      assert |Held(ownedTokens, user)| == Balance(balances, user);
      forall k: nat | k < |uris| ensures BASE_URI <= uris[k] {
        TokenURIIsArticle(Held(ownedTokens, user)[k]);
      }
      BalanceCounts(Enum(), owners, balances, user);
      assert TokensOf(View(), user) == set t | t in owners && owners[t] == user;
      forall a ensures multiset(uris)[BASE_URI + a] == if OwnerOfArticle(View(), a) == user then 1 else 0 {
        ListedOnce(user, uris, a);
      }
    }

    lemma ListedOnce(user: Address, uris: seq<string>, a: string)
      requires Valid() && user != ZERO_ADDRESS
      requires Lines(user, uris)
      ensures multiset(uris)[BASE_URI + a] == if OwnerOfArticle(View(), a) == user then 1 else 0
    {
      var tokens := Held(ownedTokens, user);
      assert ArrayOf(tokens, user, owners, ownedTokensIndex);
      forall k: nat | k < |uris| && uris[k] == BASE_URI + a
        ensures tokens[k] == GetTokenId(a) && OwnerOfArticle(View(), a) == user && ownedTokensIndex[GetTokenId(a)] == k
      {
        TokenURIIsArticle(tokens[k]);
        SamePrefix(BASE_URI, tokenURIs[tokens[k]], a);
      }
      if OwnerOfArticle(View(), a) == user {
        assert InPlace(GetTokenId(a), Enum(), owners);
        TokenURIIsArticle(GetTokenId(a));
        OccursOnce(uris, BASE_URI + a, ownedTokensIndex[GetTokenId(a)]);
      }
    }
  }

  lemma SamePrefix(p: string, a: string, b: string)
    requires p + a == p + b
    ensures a == b
  {
    assert (p + a)[|p|..] == a && (p + b)[|p|..] == b;
  }

  lemma OccursOnce<T>(xs: seq<T>, x: T, k: nat)
    requires k < |xs| && xs[k] == x
    requires forall i: nat | i < |xs| && xs[i] == x :: i == k
    ensures multiset(xs)[x] == 1
  {
    assert xs == xs[..k] + [x] + xs[k + 1..];
    assert x !in xs[..k] && x !in xs[k + 1..];
  }
}
