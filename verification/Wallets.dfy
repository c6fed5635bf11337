/**
 The DynamoDB table of wallets and nonces: one table keyed by kind and key, conditional all-or-nothing
 writes, and an atomic get-and-replace.
 */
module Wallets {
  import opened Basics
  import opened Hex

  datatype Kind = UserToWallet | UserToNonce | WalletToUser

  type Items = map<(Kind, string), string>

  // ---------- reading ----------

  function GetValue(items: Items, kind: Kind, key: string): Result<string> {
    if (kind, key) in items then Ok(items[(kind, key)]) else Err(ItemNotFound)
  }

  function GetAddressByID(items: Items, user: string): Result<Address> {
    var text :- GetValue(items, UserToWallet, user);
    Ok(HexToAddress(text))
  }

  function GetNonceByID(items: Items, user: string): Result<Hash> {
    var text :- GetValue(items, UserToNonce, user);
    Ok(HexToHash(text))
  }

  /** Whatever spelling was registered, the lookup uses the EIP-55 form. */
  function GetIDByAddress(k: Keccak, items: Items, address: Address): Result<string> {
    GetValue(items, WalletToUser, Checksum(k, address))
  }

  // ---------- the registry invariant ----------

  predicate Registered(items: Items, user: string) {
    (UserToWallet, user) in items
  }

  predicate Taken(items: Items, wallet: string) {
    (WalletToUser, wallet) in items
  }

  /** Users and wallets determine each other, and exactly the registered users have a nonce. */
  ghost predicate Paired(items: Items) {
    && (forall u | Registered(items, u) ::
          Taken(items, items[(UserToWallet, u)]) && items[(WalletToUser, items[(UserToWallet, u)])] == u)
    && (forall w | Taken(items, w) ::
          Registered(items, items[(WalletToUser, w)]) && items[(UserToWallet, items[(WalletToUser, w)])] == w)
    && (forall u :: Registered(items, u) <==> (UserToNonce, u) in items)
  }

  predicate IsCanonical(k: Keccak, wallet: string) {
    wallet == Checksum(k, HexToAddress(wallet))
  }

  /** Every registered wallet is spelled in EIP-55 form. */
  ghost predicate AllCanonical(k: Keccak, items: Items) {
    forall u | Registered(items, u) :: IsCanonical(k, items[(UserToWallet, u)])
  }

  /** The lookup by address is the inverse of the lookup by user. */
  ghost predicate MutualLookups(k: Keccak, items: Items) {
    forall u: string, a: Address :: GetAddressByID(items, u) == Ok(a) <==> GetIDByAddress(k, items, a) == Ok(u)
  }

  /** The two lookups are mutually inverse exactly when every wallet was registered in EIP-55 form. */
  lemma LookupsInverseIffCanonical(k: Keccak, items: Items)
    requires Paired(items)
    ensures MutualLookups(k, items) <==> AllCanonical(k, items)
  {
    if AllCanonical(k, items) {
      forall u: string, a: Address
        ensures GetAddressByID(items, u) == Ok(a) <==> GetIDByAddress(k, items, a) == Ok(u)
      {
        CanonicalLookups(k, items, u, a);
      }
    }
    if MutualLookups(k, items) {
      forall u | Registered(items, u) ensures IsCanonical(k, items[(UserToWallet, u)]) {
        var a := HexToAddress(items[(UserToWallet, u)]);
        assert GetAddressByID(items, u) == Ok(a);
        assert GetIDByAddress(k, items, a) == Ok(u);
      }
    }
  }

  lemma CanonicalLookups(k: Keccak, items: Items, u: string, a: Address)
    requires Paired(items) && AllCanonical(k, items)
    ensures GetAddressByID(items, u) == Ok(a) <==> GetIDByAddress(k, items, a) == Ok(u)
  {
    ChecksumSpells(k, a);
    hide HexToAddress, Checksum;
    if Taken(items, Checksum(k, a)) {
      var v := items[(WalletToUser, Checksum(k, a))];
      assert Registered(items, v);
    }
  }

  // ---------- writing ----------

  function AfterPut(items: Items, user: string, wallet: string, nonce: Hash): Items {
    items[(UserToWallet, user) := wallet][(UserToNonce, user) := HashHex(nonce)][(WalletToUser, wallet) := user]
  }

  predicate PutAllowed(items: Items, user: string, wallet: string) {
    !Registered(items, user) && (UserToNonce, user) !in items && !Taken(items, wallet)
  }

  function AfterReplace(items: Items, user: string, nonce: Hash): Items {
    items[(UserToNonce, user) := HashHex(nonce)]
  }

  function AfterDelete(k: Keccak, items: Items, user: string): Items
    requires Registered(items, user)
  {
    items - {(UserToWallet, user), (UserToNonce, user),
             (WalletToUser, Checksum(k, HexToAddress(items[(UserToWallet, user)])))}
  }

  lemma PutKeepsPaired(items: Items, user: string, wallet: string, nonce: Hash)
    requires Paired(items) && PutAllowed(items, user, wallet)
    ensures Paired(AfterPut(items, user, wallet, nonce))
  {
  }

  /** Replacing a nonce keeps the registry sound exactly when the user is registered. */
  lemma ReplaceKeepsPaired(items: Items, user: string, nonce: Hash)
    requires Paired(items)
    ensures Paired(AfterReplace(items, user, nonce)) <==> Registered(items, user)
  {
    var after := AfterReplace(items, user, nonce);
    assert (UserToNonce, user) in after;
    assert Registered(after, user) <==> Registered(items, user);
    assert forall w :: Taken(after, w) <==> Taken(items, w);
  }

  /** Deletion removes the wallet row of the EIP-55 form, which is the user's own only if registered so. */
  lemma DeleteKeepsPaired(k: Keccak, items: Items, user: string)
    requires Paired(items) && Registered(items, user)
    ensures Paired(AfterDelete(k, items, user)) <==> IsCanonical(k, items[(UserToWallet, user)])
  {
    var wallet := items[(UserToWallet, user)];
    var after := AfterDelete(k, items, user);
    hide HexToAddress, Checksum;
    if IsCanonical(k, wallet) {
      DroppingThreeRows(items, user);
      hide Paired;
    } else {
      assert Taken(items, wallet) && items[(WalletToUser, wallet)] == user;
      assert Taken(after, wallet) && after[(WalletToUser, wallet)] == user && !Registered(after, user);
    }
  }

  lemma DroppingThreeRows(items: Items, user: string)
    requires Paired(items) && Registered(items, user)
    ensures Paired(items - {(UserToWallet, user), (UserToNonce, user), (WalletToUser, items[(UserToWallet, user)])})
  {
    var wallet := items[(UserToWallet, user)];
    var after := items - {(UserToWallet, user), (UserToNonce, user), (WalletToUser, wallet)};
    forall u | Registered(after, u)
      ensures Taken(after, after[(UserToWallet, u)]) && after[(WalletToUser, after[(UserToWallet, u)])] == u
    {
      assert Registered(items, u) && u != user && items[(UserToWallet, u)] != wallet;
    }
    forall w | Taken(after, w)
      ensures Registered(after, after[(WalletToUser, w)]) && after[(UserToWallet, after[(WalletToUser, w)])] == w
    {
      assert Taken(items, w) && w != wallet && items[(WalletToUser, w)] != user;
    }
    forall u ensures Registered(after, u) <==> (UserToNonce, u) in after {
      assert Registered(items, u) <==> (UserToNonce, u) in items;
    }
  }

  /** Deleting undoes registering exactly when the wallet was given in EIP-55 form. */
  lemma DeleteUndoesPut(k: Keccak, items: Items, user: string, wallet: string, nonce: Hash)
    requires PutAllowed(items, user, wallet)
    ensures AfterDelete(k, AfterPut(items, user, wallet, nonce), user) == items <==> IsCanonical(k, wallet)
  {
    var after := AfterPut(items, user, wallet, nonce);
    if IsCanonical(k, wallet) {
      assert AfterDelete(k, after, user) == items;
    } else {
      assert Taken(AfterDelete(k, after, user), wallet);
    }
  }

  /**
   The registration endpoint accepts any spelling, so two users can register one account; then both
   lookups by user give that account although at most one user is found by it.
   */
  lemma TwoSpellingsOneAccount(items: Items, u: string, v: string, w1: string, w2: string, n1: Hash, n2: Hash)
    requires PutAllowed(items, u, w1) && PutAllowed(items, v, w2) && u != v && w1 != w2
    requires IsAddressPattern(w1) && IsAddressPattern(w2)
    requires forall i | 2 <= i < 42 :: ParseDigit(w1[i]) == ParseDigit(w2[i])
    ensures var both := AfterPut(AfterPut(items, u, w1, n1), v, w2, n2);
      && PutAllowed(AfterPut(items, u, w1, n1), v, w2)
      && GetAddressByID(both, u) == GetAddressByID(both, v) != Err(ItemNotFound)
  {
    var ds, es := SpelledDigits(w1), SpelledDigits(w2);
    assert ds == es;
    ReadDigits(w1, ds);
    ReadDigits(w2, es);
  }

  // ---------- whole histories ----------

  datatype Operation =
    | PutWallet(user: string, wallet: string, nonce: Hash)
    | ReplaceNonce(user: string, nonce: Hash)

  /** A refused registration changes nothing; nonces are replaced for registered users only. */
  function Perform(items: Items, op: Operation): Items {
    match op
    case PutWallet(u, w, n) => if PutAllowed(items, u, w) then AfterPut(items, u, w, n) else items
    case ReplaceNonce(u, n) => if Registered(items, u) then AfterReplace(items, u, n) else items
  }

  function PerformAll(items: Items, ops: seq<Operation>): Items
    decreases |ops|
  {
    if ops == [] then items else PerformAll(Perform(items, ops[0]), ops[1..])
  }

  /** Under any interleaving the pairing survives and no registered pair ever changes. */
  lemma {:induction false} RegistryHistory(items: Items, ops: seq<Operation>)
    requires Paired(items)
    ensures Paired(PerformAll(items, ops))
    ensures forall u | Registered(items, u) ::
      Registered(PerformAll(items, ops), u)
      && PerformAll(items, ops)[(UserToWallet, u)] == items[(UserToWallet, u)]
    decreases |ops|
  {
    if ops != [] {
      var next := Perform(items, ops[0]);
      match ops[0] {
        case PutWallet(u, w, n) =>
          if PutAllowed(items, u, w) { PutKeepsPaired(items, u, w, n); }
        case ReplaceNonce(u, n) =>
          ReplaceKeepsPaired(items, u, n);
      }
      RegistryHistory(next, ops[1..]);
    }
  }

  // ---------- the table ----------

  datatype Put = Put(kind: Kind, key: string, value: string)

  /** Why a write was not made: DynamoDB reports one reason for each write of the transaction. */
  datatype Reason = NoReason | ConditionalCheckFailed(kind: Kind)

  function ReasonFor(items: Items, p: Put): Reason {
    if (p.kind, p.key) in items then ConditionalCheckFailed(p.kind) else NoReason
  }

  function Written(items: Items, puts: seq<Put>): Items
    decreases |puts|
  {
    if puts == [] then items
    else Written(items[(puts[0].kind, puts[0].key) := puts[0].value], puts[1..])
  }

  /** The three writes of a registration, and what they make the look-ups by user answer. */
  lemma ThreeRows(items: Items, user: string, wallet: string, nonce: Hash)
    ensures Written(items, [Put(UserToWallet, user, wallet), Put(UserToNonce, user, HashHex(nonce)),
                            Put(WalletToUser, wallet, user)]) == AfterPut(items, user, wallet, nonce)
    ensures GetAddressByID(AfterPut(items, user, wallet, nonce), user) == Ok(HexToAddress(wallet))
    ensures GetNonceByID(AfterPut(items, user, wallet, nonce), user) == Ok(nonce)
  {
    NonceRoundTrip(nonce);
    hide HexToAddress, HexToHash, HashHex;
    var puts := [Put(UserToWallet, user, wallet), Put(UserToNonce, user, HashHex(nonce)), Put(WalletToUser, wallet, user)];
    var first := items[(UserToWallet, user) := wallet];
    var second := first[(UserToNonce, user) := HashHex(nonce)];
    assert Written(second, puts[1..][1..]) == second[(WalletToUser, wallet) := user];
    assert Written(first, puts[1..]) == AfterPut(items, user, wallet, nonce);
  }

  class DynamoTable {
    var items: Items

    constructor ()
      ensures items == map[]
    {
      items := map[];
    }

    /** `TransactWriteItems` with the condition `attribute_not_exists` on every put. */
    method TransactPut(puts: seq<Put>) returns (reasons: Option<seq<Reason>>)
      requires forall i, j | 0 <= i < j < |puts| :: (puts[i].kind, puts[i].key) != (puts[j].kind, puts[j].key)
      modifies this
      ensures reasons.None? <==> forall i | 0 <= i < |puts| :: (puts[i].kind, puts[i].key) !in old(items)
      ensures reasons.None? ==> items == Written(old(items), puts)
      ensures reasons.Some? ==> items == old(items) && |reasons.value| == |puts|
      ensures reasons.Some? ==> forall i | 0 <= i < |puts| :: reasons.value[i] == ReasonFor(items, puts[i])
    {
      var failed := false;
      var list: seq<Reason> := [];
      for i := 0 to |puts|
        invariant |list| == i
        invariant forall j | 0 <= j < i :: list[j] == ReasonFor(items, puts[j])
        invariant failed <==> exists j | 0 <= j < i :: (puts[j].kind, puts[j].key) in items
      {
        list := list + [ReasonFor(items, puts[i])];
        if (puts[i].kind, puts[i].key) in items {
          failed := true;
        }
      }
      if failed {
        return Some(list);
      }
      items := Written(items, puts);
      return None;
    }

    /**
     `PutUserWallet`. The user's own rows are reported before the wallet's; in a sound registry the
     three outcomes mean "already registered", "wallet taken" and "now registered".
     */
    method PutUserWallet(user: string, wallet: string, nonce: Hash) returns (r: Result<()>)
      modifies this
      ensures r == Err(UserAlreadyHasWallet) <==> Registered(old(items), user) || (UserToNonce, user) in old(items)
      ensures r == Err(WalletAlreadyUsed) <==>
        !Registered(old(items), user) && (UserToNonce, user) !in old(items) && Taken(old(items), wallet)
      ensures r.Ok? <==> PutAllowed(old(items), user, wallet)
      ensures items == if r.Ok? then AfterPut(old(items), user, wallet, nonce) else old(items)
      ensures r.Ok? ==> GetAddressByID(items, user) == Ok(HexToAddress(wallet)) && GetNonceByID(items, user) == Ok(nonce)
      ensures Paired(old(items)) ==> Paired(items) && (r == Err(UserAlreadyHasWallet) <==> Registered(old(items), user))
    {
      if PutAllowed(items, user, wallet) && Paired(items) {
        PutKeepsPaired(items, user, wallet, nonce);
      }
      ThreeRows(items, user, wallet, nonce);
      assert Paired(items) ==> (Registered(items, user) <==> (UserToNonce, user) in items);
      hide Written, AfterPut, HexToAddress, HexToHash, HashHex, Paired;
      var puts := [Put(UserToWallet, user, wallet), Put(UserToNonce, user, HashHex(nonce)), Put(WalletToUser, wallet, user)];
      var cancelled := TransactPut(puts);
      if cancelled.Some? {
        var reasons := cancelled.value;
        assert reasons[0] == ReasonFor(items, puts[0]) && reasons[1] == ReasonFor(items, puts[1])
          && reasons[2] == ReasonFor(items, puts[2]);
        for i := 0 to |reasons|
          invariant forall j | 0 <= j < i :: reasons[j].NoReason?
        {
          match reasons[i] {
            case NoReason =>
            case ConditionalCheckFailed(kind) =>
              match kind {
                case UserToWallet | UserToNonce => return Err(UserAlreadyHasWallet);
                case WalletToUser => return Err(WalletAlreadyUsed);
              }
          }
        }
        assert false;
      }
      assert (puts[0].kind, puts[0].key) !in old(items) && (puts[1].kind, puts[1].key) !in old(items)
        && (puts[2].kind, puts[2].key) !in old(items);
      return Ok(());
    }

    /**
     `GetAndReplaceNonceByID`: one call stores the new nonce and returns the old one. For a user
     without a row the new one is stored all the same, and the call fails.
     */
    method GetAndReplaceNonceByID(user: string, nonce: Hash) returns (r: Result<Hash>)
      modifies this
      ensures items == AfterReplace(old(items), user, nonce)
      ensures r == if GetNonceByID(old(items), user).Ok? then GetNonceByID(old(items), user) else Err(ValueFieldNotFound)
      ensures GetNonceByID(items, user) == Ok(nonce)
    {
      NonceRoundTrip(nonce);
      var previous := GetValue(items, UserToNonce, user);
      items := items[(UserToNonce, user) := HashHex(nonce)];
      match previous {
        case Ok(text) => return Ok(HexToHash(text));
        case Err(_) => return Err(ValueFieldNotFound);
      }
    }

    method GenerateAndPutNonce(user: string, nonce: Hash)
      modifies this
      ensures items == AfterReplace(old(items), user, nonce)
      ensures GetNonceByID(items, user) == Ok(nonce)
    {
      NonceRoundTrip(nonce);
      items := items[(UserToNonce, user) := HashHex(nonce)];
    }

    method DeleteUserWalletByID(k: Keccak, user: string) returns (r: Result<()>)
      modifies this
      ensures r.Ok? <==> Registered(old(items), user)
      ensures items == if r.Ok? then AfterDelete(k, old(items), user) else old(items)
      ensures r.Ok? && Paired(old(items)) ==>
        (Paired(items) <==> IsCanonical(k, old(items)[(UserToWallet, user)]))
    {
      var walletAddress :- GetAddressByID(items, user);
      if Paired(items) {
        DeleteKeepsPaired(k, items, user);
      }
      items := items - {(UserToWallet, user), (UserToNonce, user), (WalletToUser, Checksum(k, walletAddress))};
      return Ok(());
    }
  }
}
