/**
 What the Knowtfolio contract promises, as a value: which tokens exist, who owns them and which
 article each stands for. Storage layout and enumeration belong to module `Contract`.
 */
module Ledger {
  import opened Hex

  /**
   `approved` and `operators` are the permissions of EIP-721. `moved` holds the tokens named by a
   Transfer event other than the one of their mint.
   */
  datatype Ledger = Ledger(
    counter: nat,
    owner: map<nat, Address>,
    approved: map<nat, Address>,
    operators: set<(Address, Address)>,
    uri: map<nat, string>,
    tokenIdOf: map<string, nat>,
    moved: set<nat>)

  const EMPTY := Ledger(0, map[], map[], {}, map[], map[], {})

  /** A public call of EIP-721; `sender` is whoever makes it. */
  datatype Call =
    | TransferFrom(sender: Address, from: Address, to: Address, id: nat)
    | Approve(sender: Address, to: Address, id: nat)
    | SetApprovalForAll(sender: Address, operator: Address, on: bool)

  // ---------- views ----------

  function TokenId(l: Ledger, article: string): nat {
    if article in l.tokenIdOf then l.tokenIdOf[article] else 0
  }

  predicate Minted(l: Ledger, article: string) {
    TokenId(l, article) != 0
  }

  /**
   `getOwnerOfArticle`: the zero address stands for "no token". That a recorded token has an owner is part
   of the invariant below.
   */
  function OwnerOfArticle(l: Ledger, article: string): Address {
    var id := TokenId(l, article);
    if id == 0 || id !in l.owner then ZERO_ADDRESS else l.owner[id]
  }

  function TokensOf(l: Ledger, user: Address): set<nat> {
    set t | t in l.owner && l.owner[t] == user
  }

  /** `_isApprovedOrOwner` */
  predicate MayMove(l: Ledger, sender: Address, id: nat)
    requires id in l.owner
  {
    || sender == l.owner[id]
    || (id in l.approved && l.approved[id] == sender)
    || (l.owner[id], sender) in l.operators
  }

  // ---------- transitions ----------

  /** A call that reverts leaves the ledger as it was. */
  predicate Succeeds(l: Ledger, c: Call) {
    match c
    case TransferFrom(sender, from, to, id) =>
      id in l.owner && MayMove(l, sender, id) && l.owner[id] == from && to != ZERO_ADDRESS
    case Approve(sender, to, id) =>
      id in l.owner && to != l.owner[id] && (sender == l.owner[id] || (l.owner[id], sender) in l.operators)
    case SetApprovalForAll(sender, operator, _) =>
      sender != operator
  }

  function Apply(l: Ledger, c: Call): Ledger {
    if !Succeeds(l, c) then l
    else match c
      case TransferFrom(_, _, to, id) =>
        l.(owner := l.owner[id := to], approved := l.approved - {id}, moved := l.moved + {id})
      case Approve(_, to, id) =>
        l.(approved := if to == ZERO_ADDRESS then l.approved - {id} else l.approved[id := to])
      case SetApprovalForAll(sender, operator, on) =>
        l.(operators := if on then l.operators + {(sender, operator)} else l.operators - {(sender, operator)})
  }

  function ApplyAll(l: Ledger, calls: seq<Call>): Ledger
    decreases |calls|
  {
    if calls == [] then l else ApplyAll(Apply(l, calls[0]), calls[1..])
  }

  /** What `_safeMint` has done when it calls the receiver: the token has an owner but no article. */
  function Issued(l: Ledger, recipient: Address): Ledger {
    var id := l.counter + 1;
    l.(counter := id, owner := l.owner[id := recipient])
  }

  function Named(l: Ledger, id: nat, article: string): Ledger {
    l.(uri := l.uri[id := article], tokenIdOf := l.tokenIdOf[article := id])
  }

  predicate MintAllowed(l: Ledger, recipient: Address, article: string) {
    article != "" && TokenId(l, article) == 0 && recipient != ZERO_ADDRESS
  }

  /**
   `mintNFT` sent by the contract owner: the receiver makes `calls` before the article is recorded,
   and may refuse the token, which undoes everything.
   */
  function Mint(l: Ledger, recipient: Address, article: string, calls: seq<Call>, accepts: bool): Ledger {
    if MintAllowed(l, recipient, article) && accepts
    then Named(ApplyAll(Issued(l, recipient), calls), l.counter + 1, article)
    else l
  }

  // ---------- the invariant ----------

  /** Every token up to the counter exists, has a real owner, and none exists beyond it. */
  ghost predicate Issuance(l: Ledger) {
    && (forall t: nat :: t in l.owner <==> 1 <= t <= l.counter)
    && (forall t | t in l.owner :: l.owner[t] != ZERO_ADDRESS)
    && l.moved <= l.owner.Keys
    && l.approved.Keys <= l.owner.Keys
  }

  /** Token ids and articles determine each other, over exactly the tokens below `bound`. */
  ghost predicate Naming(l: Ledger, bound: nat) {
    && (forall t: nat :: t in l.uri <==> 1 <= t <= bound)
    && (forall a | a in l.tokenIdOf :: a != "" && l.tokenIdOf[a] in l.uri && l.uri[l.tokenIdOf[a]] == a)
    && (forall t | t in l.uri :: l.uri[t] in l.tokenIdOf && l.tokenIdOf[l.uri[t]] == t)
  }

  ghost predicate Consistent(l: Ledger) {
    Issuance(l) && Naming(l, l.counter)
  }

  // ---------- what public calls keep ----------

  /** How a ledger reached by public calls relates to the one before them. */
  ghost predicate MovesOnly(l: Ledger, m: Ledger) {
    && m.counter == l.counter && m.uri == l.uri && m.tokenIdOf == l.tokenIdOf
    && m.owner.Keys == l.owner.Keys
    && l.moved <= m.moved
    && forall t | t in l.owner && t !in m.moved :: m.owner[t] == l.owner[t]
  }

  lemma CallMovesOnly(l: Ledger, c: Call)
    requires Issuance(l)
    ensures MovesOnly(l, Apply(l, c)) && Issuance(Apply(l, c))
  {
    if Succeeds(l, c) && c.TransferFrom? {
      assert Apply(l, c).owner.Keys == l.owner.Keys;
    }
  }

  lemma {:induction false} CallsMoveOnly(l: Ledger, calls: seq<Call>)
    requires Issuance(l)
    ensures MovesOnly(l, ApplyAll(l, calls)) && Issuance(ApplyAll(l, calls))
    decreases |calls|
  {
    if calls != [] {
      CallMovesOnly(l, calls[0]);
      CallsMoveOnly(Apply(l, calls[0]), calls[1..]);
    }
  }

  /**
   A token changes owner only in a transfer sent by its owner, by the account approved for it, or by
   an operator of its owner; and the approval does not survive the transfer.
   */
  lemma OnlyPermittedMoves(l: Ledger, c: Call, t: nat)
    requires Issuance(l) && t in l.owner
    requires t in Apply(l, c).owner && Apply(l, c).owner[t] != l.owner[t]
    ensures c.TransferFrom? && c.id == t && MayMove(l, c.sender, t) && t !in Apply(l, c).approved
  {
  }

  /** The holder has given nobody power over the token. */
  predicate Ungranted(l: Ledger, t: nat) {
    t in l.owner && t !in l.approved && forall p | p in l.operators :: p.0 != l.owner[t]
  }

  /**
   Whatever calls others make, and however many, a token stays with a holder who has granted nothing and makes
   no call.
   */
  lemma {:induction false} HolderIsSafe(l: Ledger, calls: seq<Call>, t: nat)
    requires Issuance(l) && Ungranted(l, t)
    requires forall c | c in calls :: c.sender != l.owner[t]
    ensures t in ApplyAll(l, calls).owner && ApplyAll(l, calls).owner[t] == l.owner[t]
    decreases |calls|
  {
    if calls != [] {
      var next := Apply(l, calls[0]);
      CallMovesOnly(l, calls[0]);
      assert calls[0] in calls;
      assert next.owner[t] == l.owner[t] && Ungranted(next, t);
      HolderIsSafe(next, calls[1..], t);
    }
  }

  // ---------- what permissions allow ----------

  lemma TransferTakesEffect(l: Ledger, sender: Address, from: Address, to: Address, t: nat)
    requires t in l.owner && l.owner[t] == from && to != ZERO_ADDRESS
    requires sender == from || (t in l.approved && l.approved[t] == sender) || (from, sender) in l.operators
    ensures Apply(l, TransferFrom(sender, from, to, t)).owner == l.owner[t := to]
  {
  }

  /** The call neither transfers the token nor changes its approval. */
  predicate LeavesApproval(c: Call, t: nat) {
    match c
    case TransferFrom(_, _, _, id) => id != t
    case Approve(_, _, id) => id != t
    case SetApprovalForAll(_, _, _) => true
  }

  lemma {:induction false} ApprovalStays(l: Ledger, calls: seq<Call>, t: nat)
    requires t in l.owner && forall c | c in calls :: LeavesApproval(c, t)
    ensures var m := ApplyAll(l, calls);
      && t in m.owner && m.owner[t] == l.owner[t]
      && (t in m.approved <==> t in l.approved) && (t in l.approved ==> m.approved[t] == l.approved[t])
    decreases |calls|
  {
    if calls != [] {
      assert calls[0] in calls;
      ApprovalStays(Apply(l, calls[0]), calls[1..], t);
    }
  }

  /**
   An approval given by the owner or an operator is recorded and lasts: whatever happens to other tokens and
   permissions, accounts other than the owner and its operators can transfer the token exactly if they were
   approved last. Approving the zero address therefore revokes.
   */
  lemma ApprovalIsAsLastGiven(l: Ledger, giver: Address, approved: Address, t: nat, calls: seq<Call>,
                              sender: Address, to: Address)
    requires t in l.owner && approved != l.owner[t] && (giver == l.owner[t] || (l.owner[t], giver) in l.operators)
    requires forall c | c in calls :: LeavesApproval(c, t)
    requires sender != ZERO_ADDRESS && to != ZERO_ADDRESS && sender != l.owner[t]
    ensures var m := ApplyAll(Apply(l, Approve(giver, approved, t)), calls);
      var from := l.owner[t];
      (from, sender) !in m.operators ==>
        && t in m.owner && m.owner[t] == from
        && Apply(m, TransferFrom(sender, from, to, t)).owner == if sender == approved then m.owner[t := to] else m.owner
  {
    ApprovalStays(Apply(l, Approve(giver, approved, t)), calls, t);
  }

  /** The call does not change whether `operator` acts for `holder`. */
  predicate LeavesOperator(c: Call, holder: Address, operator: Address) {
    c.SetApprovalForAll? ==> c.sender != holder || c.operator != operator
  }

  lemma {:induction false} OperatorStays(l: Ledger, calls: seq<Call>, holder: Address, operator: Address)
    requires forall c | c in calls :: LeavesOperator(c, holder, operator)
    ensures (holder, operator) in ApplyAll(l, calls).operators <==> (holder, operator) in l.operators
    decreases |calls|
  {
    if calls != [] {
      assert calls[0] in calls;
      OperatorStays(Apply(l, calls[0]), calls[1..], holder, operator);
    }
  }

  /**
   An operator is set by the holder alone and stays as last set: whatever happens in between, it can transfer
   any token the holder owns by then if it was switched on, and without an approval none if it was switched off.
   */
  lemma OperatorIsAsLastSet(l: Ledger, holder: Address, operator: Address, on: bool, calls: seq<Call>, to: Address, t: nat)
    requires holder != operator && to != ZERO_ADDRESS
    requires forall c | c in calls :: LeavesOperator(c, holder, operator)
    ensures var m := ApplyAll(Apply(l, SetApprovalForAll(holder, operator, on)), calls);
      t in m.owner && m.owner[t] == holder && !(t in m.approved && m.approved[t] == operator) ==>
        Apply(m, TransferFrom(operator, holder, to, t)).owner == if on then m.owner[t := to] else m.owner
  {
    OperatorStays(Apply(l, SetApprovalForAll(holder, operator, on)), calls, holder, operator);
  }

  // ---------- minting ----------

  lemma IssuedKeeps(l: Ledger, recipient: Address)
    requires Consistent(l) && recipient != ZERO_ADDRESS
    ensures Issuance(Issued(l, recipient)) && Naming(Issued(l, recipient), l.counter)
  {
  }

  lemma NamedKeeps(l: Ledger, article: string)
    requires l.counter >= 1 && Issuance(l) && Naming(l, l.counter - 1)
    requires article != "" && article !in l.tokenIdOf
    ensures Consistent(Named(l, l.counter, article))
  {
  }

  /**
   Whatever the receiver does inside `_safeMint`, `mintNFT` re-establishes the invariant; it names
   exactly one new token and leaves every other token and article as the calls left them.
   */
  lemma MintKeepsInvariant(l: Ledger, recipient: Address, article: string, calls: seq<Call>, accepts: bool)
    requires Consistent(l)
    ensures var m := Mint(l, recipient, article, calls, accepts);
      && Consistent(m)
      && (MintAllowed(l, recipient, article) && accepts ==>
            && m.counter == l.counter + 1
            && m.tokenIdOf == l.tokenIdOf[article := m.counter]
            && m.uri == l.uri[m.counter := article]
            && l.moved <= m.moved
            && m.owner.Keys == l.owner.Keys + {m.counter}
            && (m.counter !in m.moved ==> m.owner[m.counter] == recipient)
            && (forall t | t in l.owner && t !in m.moved :: m.owner[t] == l.owner[t]))
  {
    if MintAllowed(l, recipient, article) && accepts {
      var issued := Issued(l, recipient);
      IssuedKeeps(l, recipient);
      CallsMoveOnly(issued, calls);
      var after := ApplyAll(issued, calls);
      assert TokenId(l, article) == 0 ==> article !in l.tokenIdOf;
      NamedKeeps(after, article);
      assert issued.owner.Keys == l.owner.Keys + {issued.counter};
      forall t | t in l.owner && t !in after.moved ensures after.owner[t] == l.owner[t] {
        assert issued.owner[t] == l.owner[t];
      }
    }
  }

  lemma {:induction false} LastCallApplied(l: Ledger, calls: seq<Call>, c: Call)
    ensures ApplyAll(l, calls + [c]) == Apply(ApplyAll(l, calls), c)
    decreases |calls|
  {
    hide Apply;
    if calls == [] {
      assert calls + [c] == [c];
      assert ApplyAll(Apply(l, c), []) == Apply(l, c);
    } else {
      assert (calls + [c])[0] == calls[0] && (calls + [c])[1..] == calls[1..] + [c];
      LastCallApplied(Apply(l, calls[0]), calls[1..], c);
    }
  }

  /** A call reads and writes nothing that naming the token changes. */
  lemma NamingCommutes(l: Ledger, id: nat, article: string, c: Call)
    ensures Named(Apply(l, c), id, article) == Apply(Named(l, id, article), c)
  {
  }

  /**
   The receiver's calls act before the article is recorded, but each has the effect it would have after the
   mint; so reentering gains the receiver nothing.
   */
  lemma {:induction false} CallsActAsAfterMint(l: Ledger, recipient: Address, article: string, calls: seq<Call>)
    requires MintAllowed(l, recipient, article)
    ensures Mint(l, recipient, article, calls, true) == ApplyAll(Mint(l, recipient, article, [], true), calls)
    decreases |calls|
  {
    hide Apply, Named, Issued, MintAllowed;
    if calls == [] {
      assert ApplyAll(Mint(l, recipient, article, [], true), []) == Mint(l, recipient, article, [], true);
    } else {
      var before, c := calls[..|calls| - 1], calls[|calls| - 1];
      assert calls == before + [c];
      CallsActAsAfterMint(l, recipient, article, before);
      LastCallApplied(Issued(l, recipient), before, c);
      LastCallApplied(Mint(l, recipient, article, [], true), before, c);
      NamingCommutes(ApplyAll(Issued(l, recipient), before), l.counter + 1, article, c);
    }
  }

  /**
   Who owns what after an accepted mint, read one call of the receiver at a time: without calls the recipient
   has the new token, and a further call changes an owner only by a permitted transfer of that token.
   */
  lemma OwnersLeftByCalls(l: Ledger, recipient: Address, article: string, calls: seq<Call>, c: Call, t: nat)
    requires Consistent(l) && MintAllowed(l, recipient, article) && 1 <= t <= l.counter + 1
    ensures Mint(l, recipient, article, [], true).owner == l.owner[l.counter + 1 := recipient]
    ensures var m := Mint(l, recipient, article, calls, true);
      var n := Mint(l, recipient, article, calls + [c], true);
      && t in m.owner && t in n.owner
      && n.owner[t] == (if c.TransferFrom? && c.id == t && c.from == m.owner[t] && c.to != ZERO_ADDRESS
                           && (c.sender == c.from || (t in m.approved && m.approved[t] == c.sender)
                               || (c.from, c.sender) in m.operators)
                        then c.to else m.owner[t])
  {
    assert t in Mint(l, recipient, article, calls, true).owner by {
      MintKeepsInvariant(l, recipient, article, calls, true);
    }
    assert ApplyAll(Issued(l, recipient), []) == Issued(l, recipient);
    CallStepsMint(l, recipient, article, calls, c);
    hide Mint, Named, ApplyAll, MintAllowed, Consistent;
  }

  lemma CallStepsMint(l: Ledger, recipient: Address, article: string, calls: seq<Call>, c: Call)
    requires MintAllowed(l, recipient, article)
    ensures Mint(l, recipient, article, calls + [c], true) == Apply(Mint(l, recipient, article, calls, true), c)
  {
    hide Apply, Named, Issued, MintAllowed;
    LastCallApplied(Issued(l, recipient), calls, c);
    NamingCommutes(ApplyAll(Issued(l, recipient), calls), l.counter + 1, article, c);
  }

  /** A recipient who passes the token on inside the mint has passed the article on. */
  lemma ForwardedInsideMint(l: Ledger, recipient: Address, article: string, to: Address)
    requires Consistent(l) && MintAllowed(l, recipient, article) && to != ZERO_ADDRESS
    ensures OwnerOfArticle(
        Mint(l, recipient, article, [TransferFrom(recipient, recipient, to, l.counter + 1)], true), article) == to
  {
    var c := TransferFrom(recipient, recipient, to, l.counter + 1);
    OwnersLeftByCalls(l, recipient, article, [], c, l.counter + 1);
    assert [] + [c] == [c];
  }

  // ---------- whole histories ----------

  datatype Transaction =
    | Public(call: Call)
    | MintTx(recipient: Address, article: string, calls: seq<Call>, accepts: bool)

  function Execute(l: Ledger, tx: Transaction): Ledger {
    match tx
    case Public(c) => Apply(l, c)
    case MintTx(recipient, article, calls, accepts) => Mint(l, recipient, article, calls, accepts)
  }

  function History(txs: seq<Transaction>): Ledger {
    if txs == [] then EMPTY else Execute(History(txs[..|txs| - 1]), txs[|txs| - 1])
  }

  lemma ExecuteKeeps(l: Ledger, tx: Transaction)
    requires Consistent(l)
    ensures Consistent(Execute(l, tx))
    ensures l.tokenIdOf.Keys <= Execute(l, tx).tokenIdOf.Keys
    ensures forall a | a in l.tokenIdOf :: Execute(l, tx).tokenIdOf[a] == l.tokenIdOf[a]
  {
    match tx
    case Public(c) => CallMovesOnly(l, c);
    case MintTx(recipient, article, calls, accepts) => MintKeepsInvariant(l, recipient, article, calls, accepts);
  }

  /** After any sequence of mints and public calls: one token per minted article, numbered 1..counter. */
  lemma {:induction false} HistoryIsConsistent(txs: seq<Transaction>)
    ensures Consistent(History(txs))
    ensures |History(txs).tokenIdOf| == History(txs).counter
  {
    if txs != [] {
      HistoryIsConsistent(txs[..|txs| - 1]);
      ExecuteKeeps(History(txs[..|txs| - 1]), txs[|txs| - 1]);
    }
    OneArticlePerToken(History(txs));
  }

  lemma OneArticlePerToken(l: Ledger)
    requires Consistent(l)
    ensures |l.tokenIdOf| == l.counter
  {
    Pairing(l.tokenIdOf.Keys, TokensUpTo(l.counter), l);
  }

  /** The ids 1..n. */
  function TokensUpTo(n: nat): (ids: set<nat>)
    ensures forall t: nat :: t in ids <==> 1 <= t <= n
    ensures |ids| == n
  {
    if n == 0 then {} else TokensUpTo(n - 1) + {n}
  }

  lemma {:induction false} Pairing(articles: set<string>, ids: set<nat>, l: Ledger)
    requires articles <= l.tokenIdOf.Keys
    requires forall a | a in articles :: l.tokenIdOf[a] in ids && l.tokenIdOf[a] in l.uri && l.uri[l.tokenIdOf[a]] == a
    requires forall t | t in ids :: t in l.uri && l.uri[t] in articles && l.tokenIdOf[l.uri[t]] == t
    ensures |articles| == |ids|
  {
    if a :| a in articles {
      Pairing(articles - {a}, ids - {l.tokenIdOf[a]}, l);
    } else if t :| t in ids {
      assert false;
    }
  }

  // ---------- conservation ----------

  function SumOfBalances(l: Ledger, users: seq<Address>): nat {
    if users == [] then 0 else |TokensOf(l, users[0])| + SumOfBalances(l, users[1..])
  }

  ghost predicate Distinct<T(!new)>(xs: seq<T>) {
    forall i, j | 0 <= i < j < |xs| :: xs[i] != xs[j]
  }

  function TokensOfAny(l: Ledger, users: seq<Address>): set<nat> {
    set t | t in l.owner && l.owner[t] in users
  }

  lemma {:induction false} SumCountsTokens(l: Ledger, users: seq<Address>)
    requires Distinct(users)
    ensures SumOfBalances(l, users) == |TokensOfAny(l, users)|
  {
    if users == [] {
      assert TokensOfAny(l, users) == {};
    } else {
      SumCountsTokens(l, users[1..]);
      assert users == [users[0]] + users[1..];
      assert users[0] !in users[1..];
      assert TokensOfAny(l, users) == TokensOf(l, users[0]) + TokensOfAny(l, users[1..]);
    }
  }

  /** No token is lost or duplicated: the balances of all holders add up to the token counter. */
  lemma BalancesAddUp(l: Ledger, users: seq<Address>)
    requires Issuance(l) && Distinct(users)
    requires forall t | t in l.owner :: l.owner[t] in users
    ensures SumOfBalances(l, users) == l.counter
  {
    SumCountsTokens(l, users);
    assert TokensOfAny(l, users) == TokensUpTo(l.counter);
  }
}
