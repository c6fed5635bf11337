/** Particular runs: a mint request that is not interleaved, and how a failed one leads search astray. */
module Scenarios {
  import opened Basics
  import opened Hex
  import opened Signature
  import opened Ledger
  import opened Wallets
  import Documents
  import opened Articles
  import Metadata
  import opened Search
  import opened Protocol
  import opened Invariants
  import opened Safety

  /** Which remote operations of the call work. */
  datatype Remote = Remote(send: bool, upload: bool, save: bool)

  function BeginActions(r: nat, address: string, signature: string, article: string, nonce: Hash): seq<Action> {
    [BeginMint(r, address, signature, article), TakeNonce(r, nonce)]
  }

  function CheckActions(r: nat): seq<Action> {
    [LoadRow(r), CheckAuthor(r)]
  }

  function OpeningActions(r: nat, address: string, signature: string, article: string, nonce: Hash): seq<Action> {
    BeginActions(r, address, signature, article, nonce) + CheckActions(r)
  }

  function ClosingActions(r: nat, remote: Remote): seq<Action> {
    [SendMint(r, remote.send), UploadMetadata(r, remote.upload), SaveFlag(r, remote.save)]
  }

  /** The state once the request's nonce has been taken. */
  ghost function Opened(o: Oracle, s: State, r: nat, address: string, signature: string, article: string,
                         nonce: Hash): State {
    TakeNonceStep(o, BeginMintStep(o, s, r, address, signature, article), r, nonce)
  }

  ghost function Checked(o: Oracle, s: State, r: nat, address: string, signature: string, article: string,
                         nonce: Hash): State {
    CheckAuthorStep(o, LoadRowStep(Opened(o, s, r, address, signature, article, nonce), r), r)
  }

  predicate MintSucceeded(s: State, r: nat) {
    Minting(s, r) && s.requests[r].mint.MintDone?
  }

  /** The whole call without interleaving. */
  ghost function Alone(o: Oracle, s: State, r: nat, address: string, signature: string, article: string, nonce: Hash,
                       remote: Remote): State {
    SaveFlagStep(UploadStep(SendMintStep(Checked(o, s, r, address, signature, article, nonce), r, remote.send),
                            r, remote.upload), r, remote.save)
  }

  lemma AloneIsARun(o: Oracle, s: State, r: nat, address: string, signature: string, article: string, nonce: Hash,
                    remote: Remote)
    requires nonce !in s.nonces
    ensures Run(o, s, OpeningActions(r, address, signature, article, nonce) + ClosingActions(r, remote))
      == Alone(o, s, r, address, signature, article, nonce, remote)
  {
    OpeningRun(o, s, r, address, signature, article, nonce);
    ClosingRun(o, Checked(o, s, r, address, signature, article, nonce), r, remote);
    hide Run, Checked, OpeningActions, ClosingActions;
    RunsCompose(o, s, OpeningActions(r, address, signature, article, nonce), ClosingActions(r, remote));
  }

  lemma OpeningRun(o: Oracle, s: State, r: nat, address: string, signature: string, article: string, nonce: Hash)
    requires nonce !in s.nonces
    ensures Run(o, s, OpeningActions(r, address, signature, article, nonce))
      == Checked(o, s, r, address, signature, article, nonce)
  {
    BeginRun(o, s, r, address, signature, article, nonce);
    CheckRun(o, Opened(o, s, r, address, signature, article, nonce), r);
    hide Run, Opened, BeginActions, CheckActions, LoadRowStep, CheckAuthorStep;
    RunsCompose(o, s, BeginActions(r, address, signature, article, nonce), CheckActions(r));
  }

  lemma BeginRun(o: Oracle, s: State, r: nat, address: string, signature: string, article: string, nonce: Hash)
    requires nonce !in s.nonces
    ensures Run(o, s, BeginActions(r, address, signature, article, nonce))
      == Opened(o, s, r, address, signature, article, nonce)
  {
    var actions := BeginActions(r, address, signature, article, nonce);
    var s1 := BeginMintStep(o, s, r, address, signature, article);
    assert s1.nonces == s.nonces;
    hide Run, Next, Admissible, BeginMintStep, TakeNonceStep;
    AlwaysAdmissible(o, s, s1, actions);
    NextBegins(o, s, s1, r, address, signature, article, nonce);
    Unroll(o, s, actions, 0);
    Unroll(o, s1, actions, 1);
    NothingLeft(o, TakeNonceStep(o, s1, r, nonce), actions[2..]);
    assert actions[0..] == actions;
  }

  lemma CheckRun(o: Oracle, s: State, r: nat)
    ensures Run(o, s, CheckActions(r)) == CheckAuthorStep(o, LoadRowStep(s, r), r)
  {
    var actions := CheckActions(r);
    var s1 := LoadRowStep(s, r);
    NextWorks(o, s, r, true);
    NextWorks(o, s1, r, true);
    hide Run, Next, Admissible, LoadRowStep, CheckAuthorStep;
    Unroll(o, s, actions, 0);
    Unroll(o, s1, actions, 1);
    NothingLeft(o, CheckAuthorStep(o, s1, r), actions[2..]);
    assert actions[0..] == actions;
  }

  lemma ClosingRun(o: Oracle, s: State, r: nat, remote: Remote)
    ensures Run(o, s, ClosingActions(r, remote))
      == SaveFlagStep(UploadStep(SendMintStep(s, r, remote.send), r, remote.upload), r, remote.save)
  {
    var actions := ClosingActions(r, remote);
    var s1 := SendMintStep(s, r, remote.send);
    var s2 := UploadStep(s1, r, remote.upload);
    NextWorks(o, s, r, remote.send);
    NextWorks(o, s1, r, remote.upload);
    NextWorks(o, s2, r, remote.save);
    hide Run, Next, Admissible, SendMintStep, UploadStep, SaveFlagStep;
    Unroll(o, s, actions, 0);
    Unroll(o, s1, actions, 1);
    Unroll(o, s2, actions, 2);
    NothingLeft(o, SaveFlagStep(s2, r, remote.save), actions[3..]);
    assert actions[0..] == actions;
  }

  lemma NextBegins(o: Oracle, s: State, t: State, r: nat, address: string, signature: string, article: string, nonce: Hash)
    ensures Next(o, s, BeginMint(r, address, signature, article)) == BeginMintStep(o, s, r, address, signature, article)
    ensures Next(o, t, TakeNonce(r, nonce)) == TakeNonceStep(o, t, r, nonce)
  {
  }

  lemma NextWorks(o: Oracle, s: State, r: nat, ok: bool)
    ensures Next(o, s, LoadRow(r)) == LoadRowStep(s, r)
    ensures Next(o, s, CheckAuthor(r)) == CheckAuthorStep(o, s, r)
    ensures Next(o, s, SendMint(r, ok)) == SendMintStep(s, r, ok)
    ensures Next(o, s, UploadMetadata(r, ok)) == UploadStep(s, r, ok)
    ensures Next(o, s, SaveFlag(r, ok)) == SaveFlagStep(s, r, ok)
  {
  }

  lemma AlwaysAdmissible(o: Oracle, s: State, t: State, actions: seq<Action>)
    requires |actions| >= 2 && actions[0].BeginMint? && actions[1].TakeNonce? && actions[1].nonce !in t.nonces
    ensures Admissible(o, s, actions[0]) && Admissible(o, t, actions[1])
  {
  }

  lemma NothingLeft(o: Oracle, s: State, actions: seq<Action>)
    requires actions == []
    ensures Run(o, s, actions) == s
  {
  }

  lemma Unroll(o: Oracle, s: State, actions: seq<Action>, i: nat)
    requires i < |actions|
    requires actions[i].LoadRow? || actions[i].CheckAuthor? || actions[i].SendMint? || actions[i].UploadMetadata?
      || actions[i].SaveFlag? || Admissible(o, s, actions[i])
    ensures Run(o, s, actions[i..]) == Run(o, Next(o, s, actions[i]), actions[i + 1..])
  {
    assert actions[i..][1..] == actions[i + 1..];
  }

  /** The address is the EIP-55 form of the author's account and signed the author's stored nonce. */
  ghost predicate AuthorSigned(o: Oracle, s: State, address: string, signature: string, article: string) {
    && article in s.rows
    && GetAddressByID(s.items, s.rows[article].author) == Ok(HexToAddress(address))
    && GetNonceByID(s.items, s.rows[article].author).Ok?
    && SignedBy(o, address, signature, MINT_MESSAGE, Some(GetNonceByID(s.items, s.rows[article].author).value))
  }

  /** The table once the call has come: whoever signed, the user found by the address has a new nonce. */
  function NonceSpent(o: Oracle, items: Items, address: string, nonce: Hash): Items {
    match GetIDByAddress(o.keccak, items, HexToAddress(address))
    case Ok(user) => items[(UserToNonce, user) := HashHex(nonce)]
    case Err(_) => items
  }

  lemma OpenedBy(o: Oracle, s: State, r: nat, address: string, signature: string, article: string, nonce: Hash)
    requires Inv(o, s) && r !in s.requests
    ensures var t := Opened(o, s, r, address, signature, article, nonce);
      && Minting(t, r) && t.requests[r] == MintRequest(address, signature, article, t.requests[r].mint)
      && t.rows == s.rows && t.pending == s.pending && t.objects == s.objects && t.sent == s.sent && t.chain == s.chain
      && (t.requests[r].mint.Verified? || t.requests[r].mint.MintFailed?)
      && t.items == NonceSpent(o, s.items, address, nonce)
      && (forall u :: GetAddressByID(t.items, u) == GetAddressByID(s.items, u))
      && (t.requests[r].mint.Verified? <==>
            GetIDByAddress(o.keccak, s.items, HexToAddress(address)).Ok?
            && var user := GetIDByAddress(o.keccak, s.items, HexToAddress(address)).value;
               GetNonceByID(s.items, user).Ok?
               && SignedBy(o, address, signature, MINT_MESSAGE, Some(GetNonceByID(s.items, user).value)))
  {
    hide Inv, SignedBy, HexToAddress, HexToHash, HashHex, Checksum;
  }

  /**
   A call that runs by itself passes its checks exactly when the article's author made it: its address is the
   author's registered one in EIP-55 form, and its signature covers the nonce stored for the author.
   */
  lemma ChecksPassForTheAuthor(o: Oracle, s: State, r: nat, address: string, signature: string, article: string, nonce: Hash)
    requires Inv(o, s) && r !in s.requests
    ensures var t := Checked(o, s, r, address, signature, article, nonce);
      && Minting(t, r) && t.requests[r] == MintRequest(address, signature, article, t.requests[r].mint)
      && t.rows == s.rows && t.pending == s.pending && t.objects == s.objects && t.sent == s.sent && t.chain == s.chain
      && t.items == NonceSpent(o, s.items, address, nonce)
      && (t.requests[r].mint.AuthorChecked? <==> AuthorSigned(o, s, address, signature, article))
      && (!t.requests[r].mint.AuthorChecked? ==> t.requests[r].mint.MintFailed?)
      && (t.requests[r].mint.AuthorChecked? ==> t.requests[r].mint.row == s.rows[article])
  {
    OpenedBy(o, s, r, address, signature, article, nonce);
    hide Inv, SignedBy, HexToAddress, HexToHash, Checksum, Opened, NonceSpent;
    ChecksFrom(o, Opened(o, s, r, address, signature, article, nonce), r);
    if article in s.rows {
      WhoSigned(o, s, address, signature, article);
    }
  }

  lemma ChecksFrom(o: Oracle, s: State, r: nat)
    requires Minting(s, r) && (s.requests[r].mint.Verified? || s.requests[r].mint.MintFailed?)
    ensures var t := CheckAuthorStep(o, LoadRowStep(s, r), r); var q := s.requests[r];
      && Minting(t, r) && t == s.(requests := t.requests) && t.requests[r] == q.(mint := t.requests[r].mint)
      && (t.requests[r].mint.AuthorChecked? || t.requests[r].mint.MintFailed?)
      && (t.requests[r].mint.AuthorChecked? <==>
            q.mint.Verified? && q.article in s.rows && GetAddressByID(s.items, s.rows[q.article].author).Ok?
            && Checksum(o.keccak, GetAddressByID(s.items, s.rows[q.article].author).value) == q.address)
      && (t.requests[r].mint.AuthorChecked? ==> t.requests[r].mint.row == s.rows[q.article])
  {
    hide HexToAddress, Checksum;
  }

  /** The code's three look-ups amount to "the author signed". */
  lemma WhoSigned(o: Oracle, s: State, address: string, signature: string, article: string)
    requires Inv(o, s) && article in s.rows
    ensures AuthorSigned(o, s, address, signature, article) <==>
      var id := GetIDByAddress(o.keccak, s.items, HexToAddress(address));
      var author := GetAddressByID(s.items, s.rows[article].author);
      && id.Ok? && GetNonceByID(s.items, id.value).Ok?
      && SignedBy(o, address, signature, MINT_MESSAGE, Some(GetNonceByID(s.items, id.value).value))
      && author.Ok? && Checksum(o.keccak, author.value) == address
  {
    StoresGive(o, s);
    var author := s.rows[article].author;
    CanonicalLookups(o.keccak, s.items, author, HexToAddress(address));
    if GetAddressByID(s.items, author).Ok? {
      ChecksumSpells(o.keccak, GetAddressByID(s.items, author).value);
    }
    if AuthorSigned(o, s, address, signature, article) {
      SignerIsCanonical(o, address, address, signature, MINT_MESSAGE, Some(GetNonceByID(s.items, author).value));
    }
    hide Inv, Sound, Consistent, SignedBy, HexToAddress, HexToHash, Checksum, Spells;
  }

  // ---------- what a call by itself does ----------

  /**
   A call that runs by itself succeeds exactly when the author signed it and every remote operation works.
   What it sent and uploaded before a failure stays; only a success changes a row, and only its flag.
   */
  lemma MintAloneOutcome(o: Oracle, s: State, r: nat, address: string, signature: string, article: string, nonce: Hash,
                         remote: Remote)
    requires Inv(o, s) && r !in s.requests
    ensures var t := Alone(o, s, r, address, signature, article, nonce, remote);
      var signed := AuthorSigned(o, s, address, signature, article);
      && Minting(t, r)
      && (t.requests[r].mint.MintDone? <==> signed && remote.send && remote.upload && remote.save)
      && t.rows == (if t.requests[r].mint.MintDone? then s.rows[article := s.rows[article].(tokenized := true)] else s.rows)
      && t.pending == s.pending + (if signed && remote.send then [SentMint(r, HexToAddress(address), article)] else [])
      && t.objects == s.objects + (if signed && remote.send && remote.upload then {Metadata.MetadataKey(article)} else {})
      && t.chain == s.chain && t.items == NonceSpent(o, s.items, address, nonce)
  {
    ChecksPassForTheAuthor(o, s, r, address, signature, article, nonce);
    RowsHaveTheirIds(o, s, article);
    hide Inv, SignedBy, HexToAddress, HexToHash, Checked, AuthorSigned, Metadata.MetadataKey, NonceSpent;
    CloseOutcome(Checked(o, s, r, address, signature, article, nonce), r, remote);
  }

  /** The checks the code makes on the opened request, by name. */
  predicate ChecksOut(o: Oracle, s: State, r: nat)
    requires Minting(s, r)
  {
    var q := s.requests[r];
    && q.mint.Verified? && q.article in s.rows && GetAddressByID(s.items, s.rows[q.article].author).Ok?
    && Checksum(o.keccak, GetAddressByID(s.items, s.rows[q.article].author).value) == q.address
  }

  /** The rest of a call by itself, from the moment its nonce is taken. */
  lemma FinishOutcome(o: Oracle, s: State, r: nat, remote: Remote)
    requires Minting(s, r) && (s.requests[r].mint.Verified? || s.requests[r].mint.MintFailed?)
    requires s.requests[r].article in s.rows ==> s.rows[s.requests[r].article].id == s.requests[r].article
    ensures var t := SaveFlagStep(UploadStep(SendMintStep(CheckAuthorStep(o, LoadRowStep(s, r), r), r, remote.send),
                                             r, remote.upload), r, remote.save);
      var q := s.requests[r];
      && Minting(t, r)
      && (MintSucceeded(t, r) <==> ChecksOut(o, s, r) && remote.send && remote.upload && remote.save)
      && t.rows == (if MintSucceeded(t, r) then s.rows[q.article := s.rows[q.article].(tokenized := true)] else s.rows)
      && t.pending == s.pending
           + (if ChecksOut(o, s, r) && remote.send then [SentMint(r, HexToAddress(q.address), q.article)] else [])
      && t.objects == s.objects
           + (if ChecksOut(o, s, r) && remote.send && remote.upload then {Metadata.MetadataKey(q.article)} else {})
      && t.chain == s.chain && t.items == s.items
  {
    ChecksFrom(o, s, r);
    hide CheckAuthorStep, LoadRowStep, SendMintStep, UploadStep, SaveFlagStep, HexToAddress, Checksum, Metadata.MetadataKey;
    CloseOutcome(CheckAuthorStep(o, LoadRowStep(s, r), r), r, remote);
  }

  lemma RowsHaveTheirIds(o: Oracle, s: State, article: string)
    requires Inv(o, s)
    ensures article in s.rows ==> s.rows[article].id == article
  {
  }

  lemma CloseOutcome(s: State, r: nat, remote: Remote)
    requires Minting(s, r) && (s.requests[r].mint.AuthorChecked? || s.requests[r].mint.MintFailed?)
    requires s.requests[r].mint.AuthorChecked? ==>
      var row := s.requests[r].mint.row;
      row.id == s.requests[r].article && row.id in s.rows && s.rows[row.id] == row
    ensures var t := SaveFlagStep(UploadStep(SendMintStep(s, r, remote.send), r, remote.upload), r, remote.save);
      var q := s.requests[r];
      && Minting(t, r)
      && (t.requests[r].mint.MintDone? <==> q.mint.AuthorChecked? && remote.send && remote.upload && remote.save)
      && t.rows == (if t.requests[r].mint.MintDone? then s.rows[q.article := s.rows[q.article].(tokenized := true)] else s.rows)
      && t.pending == s.pending
           + (if q.mint.AuthorChecked? && remote.send then [SentMint(r, HexToAddress(q.address), q.article)] else [])
      && t.objects == s.objects
           + (if q.mint.AuthorChecked? && remote.send && remote.upload then {Metadata.MetadataKey(q.article)} else {})
      && t.chain == s.chain && t.items == s.items
  {
    hide HexToAddress, Metadata.MetadataKey;
  }

  // ---------- what an edit by itself does ----------

  function EditChecked(o: Oracle, s: State, r: nat, editor: string, article: string, edit: Edit): State {
    ResolveOwnerStep(o, AskChainStep(BeginEditStep(s, r, editor, article, edit), r), r)
  }

  function EditAlone(o: Oracle, s: State, r: nat, editor: string, article: string, edit: Edit, ok: bool): State {
    CommitEditStep(o, EditChecked(o, s, r, editor, article, edit), r, ok)
  }

  predicate EditSucceeded(s: State, r: nat) {
    Editing(s, r) && s.requests[r].step.EditDone?
  }

  function AfterEdit(o: Oracle, rows: map<string, Row>, article: string, edit: Edit): map<string, Row>
    requires article in rows
  {
    match edit
    case Remove => rows - {article}
    case Update(change) => rows[article := rows[article].(doc := Documents.Edited(o, rows[article].doc, change))]
  }

  lemma EditChecks(o: Oracle, s: State, r: nat, editor: string, article: string, edit: Edit)
    requires r !in s.requests && (article in s.rows ==> s.rows[article].id == article)
    ensures var t := EditChecked(o, s, r, editor, article, edit);
      && Editing(t, r) && t == s.(requests := t.requests)
      && t.requests[r] == EditRequest(editor, article, edit, t.requests[r].step)
      && (t.requests[r].step.Authorized? || t.requests[r].step.EditFailed?)
      && (t.requests[r].step.Authorized? <==>
            article in s.rows && AuthorizeEdit(o.keccak, editor, s.rows[article], false, s.chain, s.items).Ok?)
      && (t.requests[r].step.Authorized? ==> t.requests[r].step.row == s.rows[article])
  {
    hide GetIDByAddress, OwnerOfArticle;
  }

  lemma CommitOutcome(o: Oracle, s: State, r: nat, ok: bool)
    requires Editing(s, r) && (s.requests[r].step.Authorized? || s.requests[r].step.EditFailed?)
    requires s.requests[r].step.Authorized? ==>
      s.requests[r].step.row.id in s.rows && s.rows[s.requests[r].step.row.id] == s.requests[r].step.row
    ensures var t := CommitEditStep(o, s, r, ok);
      var done := s.requests[r].step.Authorized? && ok;
      && Editing(t, r) && (EditSucceeded(t, r) <==> done)
      && t.rows == (if done then AfterEdit(o, s.rows, s.requests[r].step.row.id, s.requests[r].edit) else s.rows)
      && t == s.(rows := t.rows, requests := t.requests)
  {
    hide Documents.Edited;
  }

  /** The outcome of an edit in terms of the code's own check. */
  lemma EditAloneSteps(o: Oracle, s: State, r: nat, editor: string, article: string, edit: Edit, ok: bool)
    requires r !in s.requests && (article in s.rows ==> s.rows[article].id == article)
    ensures var t := EditAlone(o, s, r, editor, article, edit, ok);
      var done := article in s.rows && AuthorizeEdit(o.keccak, editor, s.rows[article], false, s.chain, s.items).Ok? && ok;
      && (EditSucceeded(t, r) <==> done)
      && t.rows == (if done then AfterEdit(o, s.rows, article, edit) else s.rows)
      && t == s.(rows := t.rows, requests := t.requests)
  {
    EditChecks(o, s, r, editor, article, edit);
    hide AuthorizeEdit, AfterEdit, EditChecked, CommitEditStep, EditSucceeded;
    CommitOutcome(o, EditChecked(o, s, r, editor, article, edit), r, ok);
  }

  /** An edit that runs by itself takes effect exactly when the editor owns the article and the database works. */
  lemma EditAloneOutcome(o: Oracle, s: State, r: nat, editor: string, article: string, edit: Edit, ok: bool)
    requires Inv(o, s) && r !in s.requests
    ensures var t := EditAlone(o, s, r, editor, article, edit, ok);
      var done := article in s.rows && Owns(editor, s.rows[article], s.chain, s.items) && ok;
      && (EditSucceeded(t, r) <==> done)
      && t.rows == (if done then AfterEdit(o, s.rows, article, edit) else s.rows)
      && t == s.(rows := t.rows, requests := t.requests)
  {
    RowsHaveTheirIds(o, s, article);
    if article in s.rows {
      StoresGive(o, s);
      hide Inv, Sound, Consistent, AuthorizeEdit, Owns;
      EditorIsOwner(o.keccak, editor, s.rows[article], false, s.chain, s.items);
    }
    hide Inv, AuthorizeEdit, Owns, AfterEdit, EditAlone, EditSucceeded;
    EditAloneSteps(o, s, r, editor, article, edit, ok);
  }

  // ---------- how search can disagree with ownership ----------

  /** The mint was sent but the upload failed; the mint is mined, and the author sells the token. */
  function SaleActions(place: nat, seller: Address, buyer: Address, token: nat): seq<Action> {
    [Mine(place, [], true), Trade(TransferFrom(seller, seller, buyer, token))]
  }

  lemma SaleRun(o: Oracle, s: State, place: nat, seller: Address, buyer: Address, token: nat)
    ensures Run(o, s, SaleActions(place, seller, buyer, token))
      == (var t := MineStep(s, place, [], true); t.(chain := Apply(t.chain, TransferFrom(seller, seller, buyer, token))))
  {
    var actions := SaleActions(place, seller, buyer, token);
    var t := MineStep(s, place, [], true);
    var u := t.(chain := Apply(t.chain, TransferFrom(seller, seller, buyer, token)));
    assert Next(o, s, actions[0]) == t && Next(o, t, actions[1]) == u;
    assert Admissible(o, s, actions[0]) && Admissible(o, t, actions[1]);
    hide Run, Next, Admissible, MineStep, Apply;
    Unroll(o, s, actions, 0);
    Unroll(o, t, actions, 1);
    NothingLeft(o, u, actions[2..]);
    assert actions[0..] == actions;
  }

  lemma SoldToken(l: Ledger, seller: Address, buyer: Address, article: string)
    requires Consistent(l) && MintAllowed(l, seller, article) && buyer != ZERO_ADDRESS
    ensures var m := Apply(Mint(l, seller, article, [], true), TransferFrom(seller, seller, buyer, l.counter + 1));
      article in m.tokenIdOf && OwnerOfArticle(m, article) == buyer
  {
    MintKeepsInvariant(l, seller, article, [], true);
    assert ApplyAll(Issued(l, seller), []) == Issued(l, seller);
  }

  /** The search by owner finds the row for the user, in every listing that has it, and the user does not own it. */
  ghost predicate Misled(s: State, article: string, user: string) {
    && article in s.rows && !Owns(user, s.rows[article], s.chain, s.items)
    && Owns(s.rows[article].author, s.rows[article], s.chain, s.items)
    && forall listing: seq<Row> | s.rows[article] in listing ::
         s.rows[article] in Select(listing, OwnedBy(s.chain, s.items, user, []))
  }

  lemma StrayMisleads(s: State, article: string, user: string)
    requires article in s.rows && Stray(s.rows[article], user, s.chain, s.items)
    ensures Misled(s, article, user)
  {
    forall listing: seq<Row> | s.rows[article] in listing
      ensures s.rows[article] in Select(listing, OwnedBy(s.chain, s.items, user, []))
    {
      SelectMembers(listing, OwnedBy(s.chain, s.items, user, []), s.rows[article]);
    }
  }

  lemma SaleMakesStray(o: Oracle, m: State, place: nat, seller: Address, article: string, buyer: string, account: Address)
    requires Consistent(m.chain) && MintAllowed(m.chain, seller, article) && account != ZERO_ADDRESS
    requires place < |m.pending| && m.pending[place].recipient == seller && m.pending[place].article == article
    requires article in m.rows && m.rows[article].id == article && !m.rows[article].tokenized
    requires m.rows[article].author != buyer && GetAddressByID(m.items, buyer) == Ok(account)
    ensures var t := Run(o, m, SaleActions(place, seller, account, m.chain.counter + 1));
      article in t.rows && Stray(t.rows[article], buyer, t.chain, t.items)
  {
    SoldToken(m.chain, seller, account, article);
    hide Consistent, MintAllowed, HexToAddress, Mint, Apply, Run, SaleActions;
    SaleRun(o, m, place, seller, account, m.chain.counter + 1);
  }

  /**
   From any state in which an author signs a mint of an untokenized article, a run exists after which the
   search by owner lists the article for the buyer of its token, although its owner is still the author.
   */
  lemma HalfFailedMintMisleadsSearch(o: Oracle, s: State, r: nat, address: string, signature: string, article: string,
                                     nonce: Hash, buyer: string, account: Address) returns (actions: seq<Action>)
    requires Inv(o, s) && r !in s.requests && nonce !in s.nonces
    requires AuthorSigned(o, s, address, signature, article)
    requires !s.rows[article].tokenized && article !in s.chain.tokenIdOf
    requires buyer != s.rows[article].author && GetAddressByID(s.items, buyer) == Ok(account)
    ensures Misled(Run(o, s, actions), article, buyer)
  {
    hide Inv, Run, SignedBy, Consistent, HexToAddress, MintAllowed, OpeningActions, ClosingActions, SaleActions,
      AuthorSigned, Owns, Stray, GetAddressByID;
    var seller := HexToAddress(address);
    SignedAuthor(o, s, address, signature, article);
    RowsHaveTheirIds(o, s, article);
    MayBeMinted(o, s, seller, article, buyer);
    UnfinishedMint(o, s, r, address, signature, article, nonce, buyer);
    var request := OpeningActions(r, address, signature, article, nonce) + ClosingActions(r, Remote(true, false, false));
    var sale := SaleActions(|s.pending|, seller, account, s.chain.counter + 1);
    RunsCompose(o, s, request, sale);
    SaleMakesStray(o, Run(o, s, request), |s.pending|, seller, article, buyer, account);
    actions := request + sale;
    hide Misled;
    StrayMisleads(Run(o, s, actions), article, buyer);
  }

  // ---------- such a run from the start ----------

  function SetupActions(o: Oracle, seller: Address, account: Address, n1: Hash, n2: Hash): seq<Action> {
    [Register("author", Checksum(o.keccak, seller), n1), Register("buyer", Checksum(o.keccak, account), n2),
     Create("article", "author", "", "")]
  }

  lemma CanonicalForm(k: Keccak, a: Address)
    ensures IsCanonical(k, Checksum(k, a)) && HexToAddress(Checksum(k, a)) == a
  {
    ChecksumSpells(k, a);
  }

  /** Two users register and one of them writes an article. */
  lemma SetupRun(o: Oracle, seller: Address, account: Address, n1: Hash, n2: Hash)
    requires seller != ZERO_ADDRESS && account != ZERO_ADDRESS && seller != account && n1 != n2
    ensures var s := Reached(o, SetupActions(o, seller, account, n1, n2));
      && s.requests == map[] && s.nonces == {n1, n2} && s.chain == EMPTY
      && "article" in s.rows && s.rows["article"].author == "author" && !s.rows["article"].tokenized
      && GetAddressByID(s.items, "author") == Ok(seller) && GetAddressByID(s.items, "buyer") == Ok(account)
      && GetNonceByID(s.items, "author") == Ok(n1)
  {
    var actions := SetupActions(o, seller, account, n1, n2);
    var w1, w2 := Checksum(o.keccak, seller), Checksum(o.keccak, account);
    CanonicalForm(o.keccak, seller);
    CanonicalForm(o.keccak, account);
    NonceRoundTrip(n1);
    hide Run, IsCanonical, HexToAddress, HexToHash, HashHex, Checksum;
    var s1 := INITIAL.(items := AfterPut(map[], "author", w1, n1), nonces := {n1});
    var s2 := s1.(items := AfterPut(s1.items, "buyer", w2, n2), nonces := {n1, n2});
    var s3 := CreateStep(o, s2, "article", "author", "", "");
    assert RegisterStep(INITIAL, "author", w1, n1) == s1;
    assert RegisterStep(s1, "buyer", w2, n2) == s2;
    SetupUnrolled(o, actions, s1, s2, s3);
  }

  lemma SetupUnrolled(o: Oracle, actions: seq<Action>, s1: State, s2: State, s3: State)
    requires |actions| == 3
    requires Admissible(o, INITIAL, actions[0]) && Next(o, INITIAL, actions[0]) == s1
    requires Admissible(o, s1, actions[1]) && Next(o, s1, actions[1]) == s2
    requires Admissible(o, s2, actions[2]) && Next(o, s2, actions[2]) == s3
    ensures Reached(o, actions) == s3
  {
    hide Run, Next, Admissible;
    Unroll(o, INITIAL, actions, 0);
    Unroll(o, s1, actions, 1);
    Unroll(o, s2, actions, 2);
    NothingLeft(o, s3, actions[3..]);
    assert actions[0..] == actions;
  }

  /** Whoever can sign for an account can be the author of such a run. */
  lemma MisleadingRun(o: Oracle, seller: Address, account: Address, signature: string, n1: Hash, n2: Hash, n3: Hash)
      returns (actions: seq<Action>)
    requires seller != ZERO_ADDRESS && account != ZERO_ADDRESS && seller != account
    requires n1 != n2 && n3 != n1 && n3 != n2
    requires SignedBy(o, Checksum(o.keccak, seller), signature, MINT_MESSAGE, Some(n1))
    ensures Misled(Reached(o, actions), "article", "buyer")
  {
    hide Inv, Run, Misled, SetupActions, SignedBy, HexToAddress, Checksum, GetAddressByID, GetNonceByID, AuthorSigned;
    var setup := SetupActions(o, seller, account, n1, n2);
    var s := Reached(o, setup);
    SetupRun(o, seller, account, n1, n2);
    SetupSigned(o, s, seller, signature, n1);
    ReachedHolds(o, setup);
    var rest := HalfFailedMintMisleadsSearch(o, s, 0, Checksum(o.keccak, seller), signature, "article", n3, "buyer",
                                             account);
    RunsCompose(o, INITIAL, setup, rest);
    actions := setup + rest;
  }

  lemma SetupSigned(o: Oracle, s: State, seller: Address, signature: string, nonce: Hash)
    requires "article" in s.rows && s.rows["article"].author == "author"
    requires GetAddressByID(s.items, "author") == Ok(seller) && GetNonceByID(s.items, "author") == Ok(nonce)
    requires SignedBy(o, Checksum(o.keccak, seller), signature, MINT_MESSAGE, Some(nonce))
    ensures AuthorSigned(o, s, Checksum(o.keccak, seller), signature, "article")
  {
    CanonicalForm(o.keccak, seller);
    hide SignedBy, HexToAddress, Checksum, GetAddressByID, GetNonceByID, IsCanonical;
  }

  /** With library functions that recover account 1 from everything, such a run exists outright. */
  lemma SearchCanBeMisled() returns (o: Oracle, actions: seq<Action>)
    ensures Misled(Reached(o, actions), "article", "buyer")
  {
    o := Oracle((a, i) => 0, (text, bytes) => Some(1), text => text);
    var signature := seq(132, i => if i == 1 then 'x' else '0');
    assert forall i | 2 <= i < |signature| :: ParseDigit(signature[i]) == Some(0);
    assert DecodeSignature(signature).Some? && |DecodeSignature(signature).value| == 65;
    assert SignedBy(o, Checksum(o.keccak, 1), signature, MINT_MESSAGE, Some(1));
    hide Misled, SignedBy, Reached, Checksum;
    actions := MisleadingRun(o, 1, 2, signature, 1, 2, 3);
  }

  lemma SignedAuthor(o: Oracle, s: State, address: string, signature: string, article: string)
    requires AuthorSigned(o, s, address, signature, article)
    ensures article in s.rows && GetAddressByID(s.items, s.rows[article].author) == Ok(HexToAddress(address))
  {
  }

  lemma UnfinishedMint(o: Oracle, s: State, r: nat, address: string, signature: string, article: string, nonce: Hash,
                       buyer: string)
    requires Inv(o, s) && r !in s.requests && nonce !in s.nonces
    requires AuthorSigned(o, s, address, signature, article) && GetAddressByID(s.items, buyer).Ok?
    ensures var m := Run(o, s, OpeningActions(r, address, signature, article, nonce)
                               + ClosingActions(r, Remote(true, false, false)));
      && m.rows == s.rows && m.chain == s.chain
      && m.pending == s.pending + [SentMint(r, HexToAddress(address), article)]
      && GetAddressByID(m.items, buyer) == GetAddressByID(s.items, buyer)
  {
    var remote := Remote(true, false, false);
    var request := OpeningActions(r, address, signature, article, nonce) + ClosingActions(r, remote);
    hide Inv, Run, Alone, SignedBy, HexToAddress, Grows, OpeningActions, ClosingActions, AuthorSigned, GetAddressByID;
    AloneIsARun(o, s, r, address, signature, article, nonce, remote);
    MintAloneOutcome(o, s, r, address, signature, article, nonce, remote);
    RunKeeps(o, s, request);
    WalletStays(s, Run(o, s, request), buyer);
  }

  lemma MayBeMinted(o: Oracle, s: State, seller: Address, article: string, buyer: string)
    requires Inv(o, s) && article in s.rows && article !in s.chain.tokenIdOf
    requires GetAddressByID(s.items, s.rows[article].author) == Ok(seller)
    requires GetAddressByID(s.items, buyer).Ok?
    ensures Consistent(s.chain) && MintAllowed(s.chain, seller, article)
    ensures GetAddressByID(s.items, buyer).value != ZERO_ADDRESS
  {
    StoresGive(o, s);
    WalletsAreNotZero(o.keccak, s.items, s.rows[article].author);
    WalletsAreNotZero(o.keccak, s.items, buyer);
  }

  // ---------- why transactions must be serializable ----------

  /** `Update` without the isolation assumed above: the row is written as it was read. */
  function OverwritingUpdate(o: Oracle, s: State, row: Row, change: Documents.Change): State {
    s.(rows := s.rows[row.id := row.(doc := Documents.Edited(o, row.doc, change))])
  }

  /**
   Writing back a row read earlier keeps the flag of a live row exactly if the flag has not been set since;
   and it brings a deleted row back.
   */
  lemma OverwritingLosesTheFlag(o: Oracle, s: State, row: Row, change: Documents.Change, article: string)
    requires Inv(o, s) && SnapshotOK(o, s, row, article)
    ensures var t := OverwritingUpdate(o, s, row, change);
      Grows(s, t) <==> article in s.rows && (s.rows[article].tokenized ==> row.tokenized)
  {
    var t := OverwritingUpdate(o, s, row, change);
    assert article in t.rows && article in s.articleIds;
    assert t.rows[article].tokenized == row.tokenized && t.rows[article].author == row.author;
    hide Inv, Documents.Edited;
  }
}
