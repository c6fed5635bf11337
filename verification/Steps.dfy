/** Each action of the protocol keeps the invariant and only lets the state grow. */
module Steps {
  import opened Basics
  import opened Hex
  import opened Signature
  import opened Ledger
  import opened Wallets
  import opened Documents
  import opened Articles
  import Metadata
  import opened Protocol
  import opened Invariants

  // ---------- registrations and new articles ----------

  lemma RegisteredSound(k: Keccak, items: Items, user: string, wallet: string, nonce: Hash)
    requires Sound(k, items) && PutAllowed(items, user, wallet)
    requires IsCanonical(k, wallet) && HexToAddress(wallet) != ZERO_ADDRESS
    ensures Sound(k, AfterPut(items, user, wallet, nonce))
  {
    ChecksumSpells(k, ZERO_ADDRESS);
    hide HexToAddress, Checksum, HashHex, Spells, Digits;
    assert wallet != Checksum(k, ZERO_ADDRESS);
    RegisteredCanonical(k, items, user, wallet, nonce);
    hide IsCanonical;
    PutKeepsPaired(items, user, wallet, nonce);
    hide Paired;
  }

  lemma RegisteredCanonical(k: Keccak, items: Items, user: string, wallet: string, nonce: Hash)
    requires AllCanonical(k, items) && IsCanonical(k, wallet)
    ensures AllCanonical(k, AfterPut(items, user, wallet, nonce))
  {
    hide IsCanonical, HashHex;
  }

  lemma RegisteredNonces(items: Items, nonces: set<Hash>, handed: map<nat, Hash>, user: string, wallet: string, nonce: Hash)
    requires NoncesOK(items, nonces, handed) && nonce !in nonces && PutAllowed(items, user, wallet)
    ensures NoncesOK(AfterPut(items, user, wallet, nonce), nonces + {nonce}, handed)
  {
    NonceRoundTrip(nonce);
    hide HexToHash, HashHex;
  }

  lemma RegisteredGrows(o: Oracle, s: State, user: string, wallet: string, nonce: Hash)
    requires RowsOK(o, s) && FlagsOK(s) && PutAllowed(s.items, user, wallet)
    ensures var t := RegisterStep(s, user, wallet, nonce); Grows(s, t) && RowsOK(o, t) && FlagsOK(t)
  {
    hide UpToDate;
  }

  lemma RegisterKeeps(o: Oracle, s: State, user: string, wallet: string, nonce: Hash)
    requires Inv(o, s) && IsCanonical(o.keccak, wallet) && HexToAddress(wallet) != ZERO_ADDRESS && nonce !in s.nonces
    ensures Inv(o, RegisterStep(s, user, wallet, nonce)) && Grows(s, RegisterStep(s, user, wallet, nonce))
  {
    hide Sound, Consistent, NoncesOK, Grows, AfterPut, PutAllowed, RowsOK, FlagsOK, RequestsOK, MintsOK, TokensOK,
      SentAllOK, IsCanonical, HexToAddress;
    if PutAllowed(s.items, user, wallet) {
      RegisteredSound(o.keccak, s.items, user, wallet, nonce);
      RegisteredNonces(s.items, s.nonces, s.handed, user, wallet, nonce);
      RegisteredGrows(o, s, user, wallet, nonce);
      NoRequestMoved(o, s, RegisterStep(s, user, wallet, nonce));
    } else {
      GrowsReflexive(s);
    }
  }

  lemma GrowsReflexive(s: State)
    ensures Grows(s, s)
  {
  }

  /** Steps that touch neither requests nor the chain, nor the list of mints. */
  lemma NoRequestMoved(o: Oracle, s: State, t: State)
    requires Inv(o, s) && Grows(s, t) && t.requests == s.requests && t.handed == s.handed
    requires t.chain == s.chain && t.sent == s.sent
    requires forall tx | tx in t.pending :: tx in s.pending
    ensures RequestsOK(o, t) && MintsOK(t) && TokensOK(t) && SentAllOK(o, t)
  {
    if 0 in s.requests {
      RequestStays(o, s, t, 0, s.requests[0]);
    }
    assert OnlyAdvances(s, t, 0) by {
      forall q | q in s.requests ensures SameTask(s.requests[q], t.requests[q]) {
        SameTaskReflexive(s.requests[q]);
      }
    }
    StoresGive(o, s);
    hide RequestOK, SameTask, NoncesOK, StoresOK, Grows, OnlyAdvances, Consistent, Sound;
    RequestsStay(o, s, t, 0);
    MintsStay(s, t);
    TokensStay(s, t);
    SentStays(o, s, t, 0);
  }

  lemma CreatedGrows(o: Oracle, s: State, id: string, author: string, title: string, content: string)
    requires RowsOK(o, s) && FlagsOK(s) && id != "" && id !in s.articleIds
    ensures var t := CreateStep(o, s, id, author, title, content); Grows(s, t) && RowsOK(o, t) && FlagsOK(t)
  {
  }

  lemma CreateKeeps(o: Oracle, s: State, id: string, author: string, title: string, content: string)
    requires Inv(o, s) && id != "" && id !in s.articleIds
    ensures Inv(o, CreateStep(o, s, id, author, title, content)) && Grows(s, CreateStep(o, s, id, author, title, content))
  {
    hide Sound, Consistent, NoncesOK, Grows, RowsOK, FlagsOK, RequestsOK, MintsOK, TokensOK, SentAllOK;
    CreatedGrows(o, s, id, author, title, content);
    NoRequestMoved(o, s, CreateStep(o, s, id, author, title, content));
  }

  // ---------- mint requests ----------

  lemma BeginMintKeeps(o: Oracle, s: State, r: nat, address: string, signature: string, article: string)
    requires Inv(o, s)
    ensures Inv(o, BeginMintStep(o, s, r, address, signature, article))
    ensures Grows(s, BeginMintStep(o, s, r, address, signature, article))
  {
    if r in s.requests {
      GrowsReflexive(s);
    } else {
      var t := BeginMintStep(o, s, r, address, signature, article);
      assert RequestOK(o, s, r, t.requests[r]) by {
        NewRequest(o, s, r);
        hide HexToAddress, Checksum;
      }
      hide Inv, RequestOK, Grows, GetIDByAddress, HexToAddress;
      RequestOnly(o, s, r, t.requests[r]);
    }
  }

  lemma NewRequest(o: Oracle, s: State, r: nat)
    requires Inv(o, s) && r !in s.requests
    ensures r !in s.handed
  {
  }

  /** The request in question satisfies its part of the invariant. */
  lemma ItsPhase(o: Oracle, s: State, r: nat)
    requires Inv(o, s) && r in s.requests
    ensures RequestOK(o, s, r, s.requests[r])
  {
  }

  lemma FailKeeps(o: Oracle, s: State, r: nat, error: Error)
    requires Inv(o, s) && Minting(s, r)
    ensures Inv(o, At(s, r, MintFailed(error))) && Grows(s, At(s, r, MintFailed(error)))
  {
    hide Inv, Grows;
    RequestOnly(o, s, r, s.requests[r].(mint := MintFailed(error)));
  }

  /** A mint request moves on to a phase it is entitled to. */
  lemma PhaseKeeps(o: Oracle, s: State, r: nat, phase: MintPhase)
    requires Inv(o, s) && Minting(s, r) && !Past(s, r)
    requires MintPhaseOK(o, s, r, s.requests[r].address, s.requests[r].signature, s.requests[r].article, phase)
    ensures Inv(o, At(s, r, phase)) && Grows(s, At(s, r, phase))
  {
    hide Inv, Grows, MintPhaseOK;
    RequestOnly(o, s, r, s.requests[r].(mint := phase));
  }

  /** An edit request moves on to a step it is entitled to. */
  lemma EditStepKeeps(o: Oracle, s: State, r: nat, step: EditPhase)
    requires Inv(o, s) && Editing(s, r)
    requires EditStepOK(o, s, s.requests[r].editor, s.requests[r].article, step)
    ensures Inv(o, AtEdit(s, r, step)) && Grows(s, AtEdit(s, r, step))
  {
    hide Inv, Grows, EditStepOK;
    RequestOnly(o, s, r, s.requests[r].(step := step));
  }

  lemma EditFailKeeps(o: Oracle, s: State, r: nat, error: Error)
    requires Inv(o, s) && Editing(s, r)
    ensures Inv(o, AtEdit(s, r, EditFailed(error))) && Grows(s, AtEdit(s, r, EditFailed(error)))
  {
    hide Inv, Grows;
    RequestOnly(o, s, r, s.requests[r].(step := EditFailed(error)));
  }

  lemma TakenNonces(items: Items, nonces: set<Hash>, handed: map<nat, Hash>, r: nat, user: string, nonce: Hash)
    requires NoncesOK(items, nonces, handed) && nonce !in nonces && r !in handed
    requires (UserToNonce, user) in items
    ensures NoncesOK(AfterReplace(items, user, nonce), nonces + {nonce},
                     handed[r := HexToHash(items[(UserToNonce, user)])])
  {
    NonceRoundTrip(nonce);
    hide HexToHash, HashHex;
  }

  lemma ReplacedSound(k: Keccak, items: Items, user: string, nonce: Hash)
    requires Sound(k, items) && Registered(items, user)
    ensures Sound(k, AfterReplace(items, user, nonce)) && (UserToNonce, user) in items
  {
    ReplaceKeepsPaired(items, user, nonce);
    hide HexToAddress, Checksum;
  }

  /** The state after the table handed out the nonce, the request set to `phase`. */
  function Handed(s: State, r: nat, user: string, nonce: Hash, phase: MintPhase): State
    requires Minting(s, r) && (UserToNonce, user) in s.items
  {
    At(s.(items := AfterReplace(s.items, user, nonce), nonces := s.nonces + {nonce},
          handed := s.handed[r := HexToHash(s.items[(UserToNonce, user)])]), r, phase)
  }

  lemma HandedGrows(o: Oracle, s: State, r: nat, user: string, nonce: Hash, phase: MintPhase)
    requires Minting(s, r) && (UserToNonce, user) in s.items && r !in s.handed
    requires RowsOK(o, s) && FlagsOK(s) && s.requests[r].mint.LookedUp?
    ensures var t := Handed(s, r, user, nonce, phase);
      Grows(s, t) && RowsOK(o, t) && FlagsOK(t) && OnlyAdvances(s, t, r)
  {
    hide UpToDate, HexToHash, HashHex;
  }

  lemma HandedKeeps(o: Oracle, s: State, r: nat, user: string, nonce: Hash, phase: MintPhase)
    requires Inv(o, s) && Minting(s, r) && s.requests[r].mint == LookedUp(user) && nonce !in s.nonces
    requires Registered(s.items, user) && (UserToNonce, user) in s.items && r !in s.handed
    requires RequestOK(o, Handed(s, r, user, nonce, phase), r, s.requests[r].(mint := phase))
    ensures var t := Handed(s, r, user, nonce, phase); Inv(o, t) && Grows(s, t)
  {
    var t := Handed(s, r, user, nonce, phase);
    StoresGive(o, s);
    hide Sound, Consistent, NoncesOK, Grows, RowsOK, FlagsOK, MintsOK, TokensOK, SentAllOK, RequestOK,
      OnlyAdvances, AfterReplace, HexToHash;
    HandedGrows(o, s, r, user, nonce, phase);
    TakenNonces(s.items, s.nonces, s.handed, r, user, nonce);
    ReplacedSound(o.keccak, s.items, user, nonce);
    RequestsStay(o, s, t, r);
    MintsStay(s, t);
    TokensStay(s, t);
    SentStays(o, s, t, r);
  }

  lemma HandedPhase(o: Oracle, s: State, r: nat, nonce: Hash)
    requires Minting(s, r) && s.requests[r].mint.LookedUp? && (UserToNonce, s.requests[r].mint.user) in s.items
    ensures var t := TakeNonceStep(o, s, r, nonce);
      Minting(t, r) && RequestOK(o, t, r, t.requests[r])
      && t == Handed(s, r, s.requests[r].mint.user, nonce, t.requests[r].mint)
      && t.requests[r] == s.requests[r].(mint := t.requests[r].mint)
  {
    hide HexToHash, HashHex, SignedBy, AfterReplace;
  }

  lemma TakeNonceKeeps(o: Oracle, s: State, r: nat, nonce: Hash)
    requires Inv(o, s) && nonce !in s.nonces
    ensures Inv(o, TakeNonceStep(o, s, r, nonce)) && Grows(s, TakeNonceStep(o, s, r, nonce))
  {
    if Minting(s, r) && s.requests[r].mint.LookedUp? {
      var user := s.requests[r].mint.user;
      ItsPhase(o, s, r);
      assert Registered(s.items, user) && r !in s.handed;
      StoresGive(o, s);
      ReplacedSound(o.keccak, s.items, user, nonce);
      hide Inv, Sound, Consistent, Grows, TakeNonceStep, RequestOK, Handed;
      HandedPhase(o, s, r, nonce);
      HandedKeeps(o, s, r, user, nonce, TakeNonceStep(o, s, r, nonce).requests[r].mint);
    } else {
      GrowsReflexive(s);
    }
  }

  lemma LoadRowKeeps(o: Oracle, s: State, r: nat)
    requires Inv(o, s)
    ensures Inv(o, LoadRowStep(s, r)) && Grows(s, LoadRowStep(s, r))
  {
    if Minting(s, r) && s.requests[r].mint.Verified? {
      var q := s.requests[r];
      ItsPhase(o, s, r);
      RowIsSnapshot(o, s, q.article);
      hide Inv, Grows, SignatureOK, SnapshotOK;
      if q.article in s.rows {
        PhaseKeeps(o, s, r, Loaded(s.rows[q.article]));
      } else {
        FailKeeps(o, s, r, ArticleNotFound);
      }
    } else {
      GrowsReflexive(s);
    }
  }

  lemma RowIsSnapshot(o: Oracle, s: State, article: string)
    requires RowsOK(o, s) && FlagsOK(s)
    ensures article in s.rows ==> SnapshotOK(o, s, s.rows[article], article)
  {
    hide UpToDate;
  }

  lemma CheckAuthorKeeps(o: Oracle, s: State, r: nat)
    requires Inv(o, s)
    ensures Inv(o, CheckAuthorStep(o, s, r)) && Grows(s, CheckAuthorStep(o, s, r))
  {
    if !Minting(s, r) || !s.requests[r].mint.Loaded? {
      GrowsReflexive(s);
    } else {
      ItsPhase(o, s, r);
      var phase := CheckAuthorAdvances(o, s, r);
      hide Inv, Grows, RequestOK, CheckAuthorStep, GetAddressByID, HexToAddress, Checksum;
      if phase.MintFailed? {
        FailKeeps(o, s, r, phase.error);
      } else {
        AuthorIsRight(o, s, r, GetAddressByID(s.items, s.requests[r].mint.row.author).value);
        hide MintPhaseOK;
        PhaseKeeps(o, s, r, phase);
      }
    }
  }

  lemma CheckAuthorAdvances(o: Oracle, s: State, r: nat) returns (phase: MintPhase)
    requires Minting(s, r) && s.requests[r].mint.Loaded?
    ensures CheckAuthorStep(o, s, r) == At(s, r, phase)
    ensures var row := s.requests[r].mint.row; var author := GetAddressByID(s.items, row.author);
      phase.MintFailed?
      || (phase == AuthorChecked(row) && author.Ok? && Checksum(o.keccak, author.value) == s.requests[r].address)
  {
    hide GetAddressByID, HexToAddress, Checksum;
    phase := CheckAuthorStep(o, s, r).requests[r].mint;
  }

  lemma AuthorIsRight(o: Oracle, s: State, r: nat, a: Address)
    requires Minting(s, r) && s.requests[r].mint.Loaded? && RequestOK(o, s, r, s.requests[r])
    requires GetAddressByID(s.items, s.requests[r].mint.row.author) == Ok(a)
    requires Checksum(o.keccak, a) == s.requests[r].address
    ensures MintPhaseOK(o, s, r, s.requests[r].address, s.requests[r].signature, s.requests[r].article,
                        AuthorChecked(s.requests[r].mint.row))
  {
    ChecksumSpells(o.keccak, a);
    hide SignatureOK, SnapshotOK, HexToAddress, Checksum, Spells;
  }

  lemma SendMintGrows(o: Oracle, s: State, r: nat)
    requires RowsOK(o, s) && FlagsOK(s) && Minting(s, r) && s.requests[r].mint.AuthorChecked?
    ensures var t := SendMintStep(s, r, true); Grows(s, t) && RowsOK(o, t) && FlagsOK(t) && OnlyAdvances(s, t, r)
    ensures s.requests[r].mint.row.id in Promised(SendMintStep(s, r, true))
  {
    hide UpToDate, HexToAddress;
    var t := SendMintStep(s, r, true);
    var tx := SentMint(r, HexToAddress(s.requests[r].address), s.requests[r].mint.row.id);
    assert tx in t.pending;
    assert ArticlesOf(s.pending) <= ArticlesOf(t.pending);
  }

  lemma SentMintOK(o: Oracle, s: State, t: State, r: nat)
    requires SentAllOK(o, s) && Grows(s, t)
    requires Minting(s, r) && RequestOK(o, s, r, s.requests[r]) && s.requests[r].mint.AuthorChecked? && t == SendMintStep(s, r, true)
    requires OnlyAdvances(s, t, r)
    ensures SentAllOK(o, t)
  {
    hide Promised, SignedBy, Checksum, HexToAddress, SnapshotOK;
    var tx := t.sent[|s.sent|];
    assert SnapshotOK(o, s, s.requests[r].mint.row, s.requests[r].article);
    assert tx.article == s.requests[r].article by { SnapshotIsOf(o, s, r); }
    forall x | x in t.sent ensures SentOK(o, t, x) {
      if x in s.sent {
        assert SentOK(o, s, x) && SameTask(s.requests[x.request], t.requests[x.request]);
      } else {
        assert x == tx;
      }
    }
    forall i | 0 <= i < |s.sent| ensures s.sent[i].request != r {
      assert SentOK(o, s, s.sent[i]);
    }
  }

  lemma SnapshotIsOf(o: Oracle, s: State, r: nat)
    requires Minting(s, r) && s.requests[r].mint.AuthorChecked?
    requires SnapshotOK(o, s, s.requests[r].mint.row, s.requests[r].article)
    ensures s.requests[r].mint.row.id == s.requests[r].article
  {
  }

  lemma SendMintKeeps(o: Oracle, s: State, r: nat, ok: bool)
    requires Inv(o, s)
    ensures Inv(o, SendMintStep(s, r, ok)) && Grows(s, SendMintStep(s, r, ok))
  {
    hide Inv, Grows;
    if Minting(s, r) && s.requests[r].mint.AuthorChecked? {
      if ok {
        SendMintOKKeeps(o, s, r);
      } else {
        FailKeeps(o, s, r, RemoteFailure);
      }
    } else {
      GrowsReflexive(s);
    }
  }

  lemma SentMintsOK(o: Oracle, s: State, t: State, r: nat)
    requires MintsOK(s) && Grows(s, t) && Minting(s, r) && s.requests[r].mint.AuthorChecked?
    requires RequestOK(o, s, r, s.requests[r]) && t == SendMintStep(s, r, true)
    requires Sound(o.keccak, s.items) && RowsOK(o, s)
    ensures MintsOK(t)
  {
    var row := s.requests[r].mint.row;
    WalletsAreNotZero(o.keccak, s.items, row.author);
    hide SignatureOK, HexToAddress, Checksum, Promised, Grows;
    forall tx | tx in t.pending ensures MintOK(t, tx) {
      if tx in s.pending {
        BelongsStays(s, t, tx.article, tx.recipient);
      } else {
        BelongsStays(s, t, row.id, tx.recipient);
      }
    }
  }

  lemma SendMintOKKeeps(o: Oracle, s: State, r: nat)
    requires Inv(o, s) && Minting(s, r) && s.requests[r].mint.AuthorChecked?
    ensures Inv(o, SendMintStep(s, r, true)) && Grows(s, SendMintStep(s, r, true))
  {
    var t := SendMintStep(s, r, true);
    var row := s.requests[r].mint.row;
    StoresGive(o, s);
    ItsPhase(o, s, r);
    assert SnapshotOK(o, s, row, s.requests[r].article);
    SnapshotIsOf(o, s, r);
    hide Sound, Consistent, NoncesOK, Grows, RowsOK, FlagsOK, MintsOK, TokensOK, SentAllOK, OnlyAdvances, Promised,
      SnapshotOK, HexToAddress, SignatureOK;
    SendMintGrows(o, s, r);
    hide RequestOK;
    SentMintOK(o, s, t, r);
    SentMintsOK(o, s, t, r);
    SnapshotStays(o, s, t, row, s.requests[r].article);
    assert RequestOK(o, t, r, t.requests[r]) by {
      SubmittedOK(o, t, r, s.requests[r].article, row);
    }
    hide SendMintStep;
    RequestsStay(o, s, t, r);
    TokensStay(s, t);
  }

  lemma SubmittedOK(o: Oracle, t: State, r: nat, article: string, row: Row)
    requires Minting(t, r) && t.requests[r].mint == Submitted(row) && t.requests[r].article == article
    requires SnapshotOK(o, t, row, article) && article in Promised(t)
    ensures RequestOK(o, t, r, t.requests[r])
  {
  }

  lemma UploadGrows(o: Oracle, s: State, r: nat)
    requires RowsOK(o, s) && FlagsOK(s) && Minting(s, r) && s.requests[r].mint.Submitted?
    ensures var t := UploadStep(s, r, true); Grows(s, t) && RowsOK(o, t) && FlagsOK(t) && OnlyAdvances(s, t, r)
  {
    hide UpToDate, Metadata.MetadataKey;
  }

  lemma UploadedPhase(o: Oracle, s: State, t: State, r: nat)
    requires Minting(s, r) && s.requests[r].mint.Submitted? && t == UploadStep(s, r, true) && Grows(s, t)
    requires SnapshotOK(o, s, s.requests[r].mint.row, s.requests[r].article) && s.requests[r].article in Promised(s)
    ensures r in t.requests && RequestOK(o, t, r, t.requests[r])
  {
    SnapshotStays(o, s, t, s.requests[r].mint.row, s.requests[r].article);
    hide UpToDate, Metadata.MetadataKey;
  }

  lemma UploadKeeps(o: Oracle, s: State, r: nat, ok: bool)
    requires Inv(o, s)
    ensures Inv(o, UploadStep(s, r, ok)) && Grows(s, UploadStep(s, r, ok))
  {
    if Minting(s, r) && s.requests[r].mint.Submitted? {
      ItsPhase(o, s, r);
      if ok {
        var t := UploadStep(s, r, true);
        assert SnapshotOK(o, s, s.requests[r].mint.row, s.requests[r].article)
          && s.requests[r].article in Promised(s);
        UploadGrows(o, s, r);
        UploadedPhase(o, s, t, r);
        hide Inv, Grows, RowsOK, FlagsOK, OnlyAdvances, RequestOK, Promised, Metadata.MetadataKey;
        MovedOnly(o, s, t, r);
      } else {
        FailKeeps(o, s, r, RemoteFailure);
      }
    } else {
      GrowsReflexive(s);
    }
  }

  /** Steps of one request that leave the tables, the chain and the lists of mints alone. */
  lemma MovedOnly(o: Oracle, s: State, t: State, r: nat)
    requires Inv(o, s) && Grows(s, t) && OnlyAdvances(s, t, r) && RowsOK(o, t) && FlagsOK(t)
    requires r in t.requests && RequestOK(o, t, r, t.requests[r])
    requires t.items == s.items && t.chain == s.chain && t.nonces == s.nonces && t.handed == s.handed
    requires t.sent == s.sent && t.pending == s.pending
    ensures Inv(o, t)
  {
    StoresGive(o, s);
    hide Sound, Consistent, NoncesOK, Grows, RowsOK, FlagsOK, MintsOK, TokensOK, SentAllOK, OnlyAdvances, RequestOK;
    RequestsStay(o, s, t, r);
    MintsStay(s, t);
    TokensStay(s, t);
    SentStays(o, s, t, r);
  }

  /** A live row is replaced by one that keeps its author and, if set, its flag. */
  lemma RowReplaced(o: Oracle, s: State, t: State, row: Row)
    requires RowsOK(o, s) && FlagsOK(s) && row.id in s.rows
    requires t == s.(rows := s.rows[row.id := row], requests := t.requests)
    requires row.author == s.rows[row.id].author && (s.rows[row.id].tokenized ==> row.tokenized)
    requires UpToDate(o, row.doc) && (row.tokenized ==> Backed(s, row.id))
    ensures Grows(s, t) && RowsOK(o, t) && FlagsOK(t)
  {
    assert Promised(t) == Promised(s);
    hide Promised, UpToDate, Metadata.MetadataKey;
  }

  lemma Advanced(s: State, t: State, r: nat)
    requires r in s.requests && r in t.requests && t.requests == s.requests[r := t.requests[r]]
    requires SameTask(s.requests[r], t.requests[r])
    ensures OnlyAdvances(s, t, r)
  {
    forall q | q in s.requests ensures SameTask(s.requests[q], t.requests[q]) {
      SameTaskReflexive(s.requests[q]);
    }
  }

  lemma SaveFlagGrows(o: Oracle, s: State, r: nat)
    requires RowsOK(o, s) && FlagsOK(s) && Minting(s, r) && s.requests[r].mint.Uploaded?
    requires SameArticle(s, s.requests[r].mint.row) && Backed(s, s.requests[r].mint.row.id)
    ensures var t := SaveFlagStep(s, r, true);
      Grows(s, t) && RowsOK(o, t) && FlagsOK(t) && OnlyAdvances(s, t, r) && RequestOK(o, t, r, t.requests[r])
  {
    var t := SaveFlagStep(s, r, true);
    var id := s.requests[r].mint.row.id;
    assert s.rows[id].id == id && UpToDate(o, s.rows[id].doc);
    Advanced(s, t, r);
    hide RowsOK, FlagsOK, Backed, UpToDate;
    RowReplaced(o, s, t, s.rows[id].(tokenized := true));
  }

  lemma UploadedIsBacked(o: Oracle, s: State, r: nat)
    requires Inv(o, s) && Minting(s, r) && s.requests[r].mint.Uploaded?
    ensures Backed(s, s.requests[r].mint.row.id)
  {
    ItsPhase(o, s, r);
  }

  lemma SaveFlagKeeps(o: Oracle, s: State, r: nat, ok: bool)
    requires Inv(o, s)
    ensures Inv(o, SaveFlagStep(s, r, ok)) && Grows(s, SaveFlagStep(s, r, ok))
  {
    if Minting(s, r) && s.requests[r].mint.Uploaded? {
      var row := s.requests[r].mint.row;
      if ok && SameArticle(s, row) {
        UploadedIsBacked(o, s, r);
        hide Backed;
        SaveFlagGrows(o, s, r);
        hide Inv, Grows, RowsOK, FlagsOK, OnlyAdvances, SameArticle, RequestOK;
        MovedOnly(o, s, SaveFlagStep(s, r, true), r);
      } else {
        hide Inv, Grows, SameArticle;
        FailKeeps(o, s, r, if ok then Conflict else RemoteFailure);
      }
    } else {
      GrowsReflexive(s);
    }
  }

  // ---------- edit requests ----------

  lemma BeginEditKeeps(o: Oracle, s: State, r: nat, editor: string, article: string, edit: Edit)
    requires Inv(o, s)
    ensures Inv(o, BeginEditStep(s, r, editor, article, edit)) && Grows(s, BeginEditStep(s, r, editor, article, edit))
  {
    if r in s.requests {
      GrowsReflexive(s);
    } else {
      RowIsSnapshot(o, s, article);
      hide Inv, Grows, SnapshotOK;
      RequestOnly(o, s, r, BeginEditStep(s, r, editor, article, edit).requests[r]);
    }
  }

  lemma AskChainKeeps(o: Oracle, s: State, r: nat)
    requires Inv(o, s)
    ensures Inv(o, AskChainStep(s, r)) && Grows(s, AskChainStep(s, r))
  {
    if Editing(s, r) && s.requests[r].step.RowRead? {
      var row := s.requests[r].step.row;
      ItsPhase(o, s, r);
      hide Inv, Grows, SnapshotOK, OwnerOfArticle;
      EditStepKeeps(o, s, r, OwnerRead(row, OwnerOfArticle(s.chain, row.id)));
    } else {
      GrowsReflexive(s);
    }
  }

  lemma ResolveOwnerKeeps(o: Oracle, s: State, r: nat)
    requires Inv(o, s)
    ensures Inv(o, ResolveOwnerStep(o, s, r)) && Grows(s, ResolveOwnerStep(o, s, r))
  {
    if Editing(s, r) && s.requests[r].step.OwnerRead? {
      var q := s.requests[r];
      ItsPhase(o, s, r);
      StoresGive(o, s);
      hide Inv, Grows, SnapshotOK, GetIDByAddress, Registered, Sound, Consistent;
      FoundIsRegistered(o.keccak, s.items, q.step.owner);
      match GetIDByAddress(o.keccak, s.items, q.step.owner) {
        case Err(e) => EditFailKeeps(o, s, r, e);
        case Ok(user) =>
          if user == q.editor {
            EditStepKeeps(o, s, r, Authorized(q.step.row));
          } else {
            EditFailKeeps(o, s, r, Unauthorized);
          }
      }
    } else {
      GrowsReflexive(s);
    }
  }

  lemma FoundIsRegistered(k: Keccak, items: Items, account: Address)
    requires Sound(k, items)
    ensures var id := GetIDByAddress(k, items, account);
      id.Ok? ==> Registered(items, id.value) && GetAddressByID(items, id.value) == Ok(account)
  {
    if GetIDByAddress(k, items, account).Ok? {
      CanonicalLookups(k, items, GetIDByAddress(k, items, account).value, account);
    }
  }

  /** The request's update finds its row unchanged. */
  predicate Current(s: State, r: nat) {
    && Editing(s, r) && s.requests[r].step.Authorized? && s.requests[r].edit.Update?
    && s.requests[r].step.row.id in s.rows && s.rows[s.requests[r].step.row.id] == s.requests[r].step.row
  }

  lemma UpdateGrows(o: Oracle, s: State, r: nat)
    requires RowsOK(o, s) && FlagsOK(s) && Current(s, r) && RequestOK(o, s, r, s.requests[r])
    ensures var t := CommitEditStep(o, s, r, true);
      Grows(s, t) && RowsOK(o, t) && FlagsOK(t) && OnlyAdvances(s, t, r) && RequestOK(o, t, r, t.requests[r])
  {
    var t := CommitEditStep(o, s, r, true);
    var row := s.requests[r].step.row;
    var edited := row.(doc := Edited(o, row.doc, s.requests[r].edit.change));
    assert row.id in s.rows && s.rows[row.id] == row && UpToDate(o, edited.doc);
    assert row.tokenized ==> Backed(s, row.id);
    hide RowsOK, FlagsOK, Backed, UpToDate, Edited;
    Advanced(s, t, r);
    RowReplaced(o, s, t, edited);
  }

  lemma RowRemoved(o: Oracle, s: State, t: State, article: string)
    requires RowsOK(o, s) && FlagsOK(s) && t == s.(rows := s.rows - {article}, requests := t.requests)
    ensures Grows(s, t) && RowsOK(o, t) && FlagsOK(t)
  {
    assert Promised(t) == Promised(s);
    hide Promised, UpToDate, Metadata.MetadataKey;
  }

  lemma RemoveGrows(o: Oracle, s: State, r: nat)
    requires RowsOK(o, s) && FlagsOK(s) && Editing(s, r) && s.requests[r].step.Authorized? && s.requests[r].edit.Remove?
    requires RequestOK(o, s, r, s.requests[r])
    ensures var t := CommitEditStep(o, s, r, true);
      Grows(s, t) && RowsOK(o, t) && FlagsOK(t) && OnlyAdvances(s, t, r) && RequestOK(o, t, r, t.requests[r])
  {
    var t := CommitEditStep(o, s, r, true);
    hide RowsOK, FlagsOK, Grows;
    RowRemoved(o, s, t, s.requests[r].step.row.id);
    Advanced(s, t, r);
  }

  lemma CommitEditKeeps(o: Oracle, s: State, r: nat, ok: bool)
    requires Inv(o, s)
    ensures Inv(o, CommitEditStep(o, s, r, ok)) && Grows(s, CommitEditStep(o, s, r, ok))
  {
    if !Editing(s, r) || !s.requests[r].step.Authorized? {
      GrowsReflexive(s);
    } else if ok && (s.requests[r].edit.Remove? || Current(s, r)) {
      ItsPhase(o, s, r);
      if s.requests[r].edit.Remove? {
        RemoveGrows(o, s, r);
      } else {
        UpdateGrows(o, s, r);
      }
      hide Inv, Grows, RowsOK, FlagsOK, OnlyAdvances, RequestOK, Edited;
      MovedOnly(o, s, CommitEditStep(o, s, r, true), r);
    } else {
      hide Inv, Grows, Edited;
      EditFailKeeps(o, s, r, if ok then Conflict else RemoteFailure);
    }
  }

  // ---------- the chain ----------

  lemma ChainGrows(o: Oracle, s: State, t: State)
    requires RowsOK(o, s) && FlagsOK(s) && Promised(s) <= Promised(t)
    requires t == s.(chain := t.chain, pending := t.pending, lost := t.lost)
    ensures Grows(s, t) && RowsOK(o, t) && FlagsOK(t)
  {
    hide UpToDate, Metadata.MetadataKey, Promised;
  }

  /** A step of the chain: requests are untouched, promises kept, tokens where they should be. */
  lemma ChainMoved(o: Oracle, s: State, t: State)
    requires Inv(o, s) && Promised(s) <= Promised(t)
    requires t == s.(chain := t.chain, pending := t.pending, lost := t.lost)
    requires forall tx | tx in t.pending :: tx in s.pending
    requires Consistent(t.chain) && TokensOK(t)
    ensures Inv(o, t) && Grows(s, t)
  {
    assert Sound(o.keccak, s.items) by { StoresGive(o, s); }
    hide Sound, Consistent, NoncesOK, Grows, RowsOK, FlagsOK, MintsOK, TokensOK, SentAllOK, OnlyAdvances, RequestOK,
      Promised;
    ChainGrows(o, s, t);
    if 0 in s.requests {
      RequestStays(o, s, t, 0, s.requests[0]);
    }
    assert OnlyAdvances(s, t, 0) by { Unmoved(s, t); }
    RequestsStay(o, s, t, 0);
    MintsStay(s, t);
    SentStays(o, s, t, 0);
  }

  lemma Unmoved(s: State, t: State)
    requires t.requests == s.requests
    ensures OnlyAdvances(s, t, 0)
  {
    forall q | q in s.requests ensures SameTask(s.requests[q], t.requests[q]) {
      SameTaskReflexive(s.requests[q]);
    }
  }

  lemma TradedTokens(s: State, t: State, call: Call)
    requires Consistent(s.chain) && TokensOK(s) && t == s.(chain := Apply(s.chain, call))
    ensures Consistent(t.chain) && TokensOK(t) && Promised(t) == Promised(s)
  {
    CallMovesOnly(s.chain, call);
    hide GetAddressByID, Apply;
    forall a | a in t.chain.tokenIdOf ensures TokenOK(t, a) {
      assert TokenOK(s, a);
    }
  }

  lemma TradeKeeps(o: Oracle, s: State, call: Call)
    requires Inv(o, s)
    ensures Inv(o, s.(chain := Apply(s.chain, call))) && Grows(s, s.(chain := Apply(s.chain, call)))
  {
    assert Consistent(s.chain) && TokensOK(s) by { ChainParts(o, s); }
    hide Inv, Apply, TokensOK, Consistent, Grows, Promised;
    TradedTokens(s, s.(chain := Apply(s.chain, call)), call);
    ChainMoved(o, s, s.(chain := Apply(s.chain, call)));
  }

  lemma ChainParts(o: Oracle, s: State)
    requires Inv(o, s)
    ensures Consistent(s.chain) && TokensOK(s)
  {
  }

  lemma MinedPromises(s: State, i: nat, calls: seq<Call>, accepts: bool)
    requires i < |s.pending| && Consistent(s.chain)
    ensures Promised(s) <= Promised(MineStep(s, i, calls, accepts))
    ensures forall tx | tx in MineStep(s, i, calls, accepts).pending :: tx in s.pending
  {
    var t := MineStep(s, i, calls, accepts);
    MintKeepsInvariant(s.chain, s.pending[i].recipient, s.pending[i].article, calls, accepts);
    hide Consistent, Mint;
    assert s.chain.tokenIdOf.Keys <= t.chain.tokenIdOf.Keys;
    forall a | a in ArticlesOf(s.pending) ensures a in Promised(t) {
      var tx :| tx in s.pending && tx.article == a;
      if tx != s.pending[i] {
        assert tx in t.pending;
      }
    }
  }

  lemma MinedTokens(s: State, t: State, i: nat, calls: seq<Call>, accepts: bool)
    requires i < |s.pending| && Consistent(s.chain) && TokensOK(s) && MintOK(s, s.pending[i])
    requires t == MineStep(s, i, calls, accepts)
    ensures Consistent(t.chain) && TokensOK(t)
  {
    var tx := s.pending[i];
    MintKeepsInvariant(s.chain, tx.recipient, tx.article, calls, accepts);
    hide GetAddressByID;
    if MintAllowed(s.chain, tx.recipient, tx.article) && accepts {
      hide Mint;
      forall a | a in t.chain.tokenIdOf ensures TokenOK(t, a) {
        if a != tx.article {
          assert TokenOK(s, a);
        }
      }
    } else {
      forall a | a in t.chain.tokenIdOf ensures TokenOK(t, a) {
        assert TokenOK(s, a);
      }
    }
  }

  lemma MineKeeps(o: Oracle, s: State, i: nat, calls: seq<Call>, accepts: bool)
    requires Inv(o, s)
    ensures Inv(o, MineStep(s, i, calls, accepts)) && Grows(s, MineStep(s, i, calls, accepts))
  {
    if i < |s.pending| {
      var t := MineStep(s, i, calls, accepts);
      assert Consistent(s.chain) && TokensOK(s) && MintOK(s, s.pending[i]);
      hide Inv, TokensOK, Consistent, Grows, Promised, Mint, MintOK;
      MinedPromises(s, i, calls, accepts);
      MinedTokens(s, t, i, calls, accepts);
      ChainMoved(o, s, t);
    } else {
      GrowsReflexive(s);
    }
  }

  // ---------- any action ----------

  lemma NextKeeps(o: Oracle, s: State, a: Action)
    requires Inv(o, s) && Admissible(o, s, a)
    ensures Inv(o, Next(o, s, a)) && Grows(s, Next(o, s, a))
  {
    hide Inv, Grows, RegisterStep, CreateStep, BeginMintStep, TakeNonceStep, LoadRowStep, CheckAuthorStep, SendMintStep,
      UploadStep, SaveFlagStep, BeginEditStep, AskChainStep, ResolveOwnerStep, CommitEditStep, MineStep, Apply,
      IsCanonical, HexToAddress;
    match a {
      case Register(user, wallet, nonce) => RegisterKeeps(o, s, user, wallet, nonce);
      case Create(id, author, title, content) => CreateKeeps(o, s, id, author, title, content);
      case BeginMint(r, address, signature, article) => BeginMintKeeps(o, s, r, address, signature, article);
      case TakeNonce(r, nonce) => TakeNonceKeeps(o, s, r, nonce);
      case LoadRow(r) => LoadRowKeeps(o, s, r);
      case CheckAuthor(r) => CheckAuthorKeeps(o, s, r);
      case SendMint(r, ok) => SendMintKeeps(o, s, r, ok);
      case UploadMetadata(r, ok) => UploadKeeps(o, s, r, ok);
      case SaveFlag(r, ok) => SaveFlagKeeps(o, s, r, ok);
      case BeginEdit(r, editor, article, edit) => BeginEditKeeps(o, s, r, editor, article, edit);
      case AskChain(r) => AskChainKeeps(o, s, r);
      case ResolveOwner(r) => ResolveOwnerKeeps(o, s, r);
      case CommitEdit(r, ok) => CommitEditKeeps(o, s, r, ok);
      case Mine(i, calls, accepts) => MineKeeps(o, s, i, calls, accepts);
      case Trade(call) => TradeKeeps(o, s, call);
    }
  }
}
