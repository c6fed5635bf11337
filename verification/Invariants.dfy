/** What every reachable state of the protocol satisfies, proved action by action. */
module Invariants {
  import opened Basics
  import opened Hex
  import opened Signature
  import opened Ledger
  import opened Wallets
  import Documents
  import opened Articles
  import Metadata
  import opened Protocol

  // ---------- the parts of the invariant ----------

  function ArticlesOf(txs: seq<SentMint>): set<string> {
    set tx | tx in txs :: tx.article
  }

  /** Articles with a token, with a mint under way, or whose mint was mined in vain. */
  function Promised(s: State): set<string> {
    s.chain.tokenIdOf.Keys + ArticlesOf(s.pending) + s.lost
  }

  /** What the flag of an article stands for. */
  predicate Backed(s: State, article: string) {
    article in Promised(s) && Metadata.MetadataKey(article) in s.objects
  }

  /** If the article's row lives, the account is the one its author registered. */
  predicate Belongs(s: State, article: string, account: Address) {
    article in s.rows ==> GetAddressByID(s.items, s.rows[article].author) == Ok(account)
  }

  ghost predicate RowsOK(o: Oracle, s: State) {
    && "" !in s.articleIds
    && forall a | a in s.rows :: s.rows[a].id == a && a in s.articleIds && Documents.UpToDate(o, s.rows[a].doc)
  }

  ghost predicate FlagsOK(s: State) {
    forall a | a in s.rows && s.rows[a].tokenized :: Backed(s, a)
  }

  /** A row read earlier: its author is still right, and its flag still backed. */
  predicate SnapshotOK(o: Oracle, s: State, row: Row, article: string) {
    && row.id == article && article in s.articleIds
    && (article in s.rows ==> s.rows[article].author == row.author)
    && (row.tokenized ==> Backed(s, article))
    && Documents.UpToDate(o, row.doc)
  }

  /** The request's address is the one the article's author registered, spelled in EIP-55 form. */
  predicate AuthorOK(o: Oracle, s: State, row: Row, address: string) {
    && address == Checksum(o.keccak, HexToAddress(address))
    && GetAddressByID(s.items, row.author) == Ok(HexToAddress(address))
  }

  /** The request holds a nonce and a signature over it by its address. */
  ghost predicate SignatureOK(o: Oracle, s: State, r: nat, address: string, signature: string) {
    r in s.handed && SignedBy(o, address, signature, MINT_MESSAGE, Some(s.handed[r]))
  }

  ghost predicate MintPhaseOK(o: Oracle, s: State, r: nat, address: string, signature: string, article: string,
                              phase: MintPhase) {
    match phase
    case LookedUp(user) => Registered(s.items, user) && r !in s.handed
    case Verified => SignatureOK(o, s, r, address, signature)
    case Loaded(row) => SignatureOK(o, s, r, address, signature) && SnapshotOK(o, s, row, article)
    case AuthorChecked(row) =>
      SignatureOK(o, s, r, address, signature) && SnapshotOK(o, s, row, article) && AuthorOK(o, s, row, address)
    case Submitted(row) => SnapshotOK(o, s, row, article) && article in Promised(s)
    case Uploaded(row) => SnapshotOK(o, s, row, article) && Backed(s, article)
    case MintDone => true
    case MintFailed(_) => true
  }

  predicate EditorOK(s: State, editor: string, row: Row) {
    if row.tokenized then Registered(s.items, editor) else editor == row.author
  }

  ghost predicate EditStepOK(o: Oracle, s: State, editor: string, article: string, step: EditPhase) {
    match step
    case RowRead(row) => SnapshotOK(o, s, row, article) && row.tokenized
    case OwnerRead(row, _) => SnapshotOK(o, s, row, article) && row.tokenized
    case Authorized(row) => SnapshotOK(o, s, row, article) && EditorOK(s, editor, row)
    case EditDone(row) => row.id == article && EditorOK(s, editor, row)
    case EditFailed(_) => true
  }

  ghost predicate RequestOK(o: Oracle, s: State, r: nat, q: Request) {
    match q
    case MintRequest(address, signature, article, phase) => MintPhaseOK(o, s, r, address, signature, article, phase)
    case EditRequest(editor, article, _, step) => EditStepOK(o, s, editor, article, step)
  }

  ghost predicate RequestsOK(o: Oracle, s: State) {
    && (forall r | r in s.requests :: RequestOK(o, s, r, s.requests[r]))
    && s.handed.Keys <= s.requests.Keys
  }

  /** Every mint under way is for a known article and goes to its author. */
  predicate MintOK(s: State, tx: SentMint) {
    && tx.article in s.articleIds && Belongs(s, tx.article, tx.recipient)
    && tx.article != "" && tx.recipient != ZERO_ADDRESS
  }

  ghost predicate MintsOK(s: State) {
    forall tx | tx in s.pending :: MintOK(s, tx)
  }

  /** A token that never moved is still with the article's author. */
  ghost predicate TokenOK(s: State, article: string) {
    && article in s.articleIds
    && (TokenId(s.chain, article) !in s.chain.moved ==> Belongs(s, article, OwnerOfArticle(s.chain, article)))
  }

  ghost predicate TokensOK(s: State) {
    forall a | a in s.chain.tokenIdOf :: TokenOK(s, a)
  }

  /** Stored nonces are known, pairwise different, and different from all handed out, which differ too. */
  ghost predicate NoncesOK(items: Items, nonces: set<Hash>, handed: map<nat, Hash>) {
    && (forall u | (UserToNonce, u) in items ::
          && items[(UserToNonce, u)] == HashHex(HexToHash(items[(UserToNonce, u)]))
          && HexToHash(items[(UserToNonce, u)]) in nonces)
    && (forall u, v | (UserToNonce, u) in items && (UserToNonce, v) in items && u != v ::
          HexToHash(items[(UserToNonce, u)]) != HexToHash(items[(UserToNonce, v)]))
    && (forall r | r in handed :: handed[r] in nonces)
    && (forall r, u | r in handed && (UserToNonce, u) in items :: handed[r] != HexToHash(items[(UserToNonce, u)]))
    && (forall r, q | r in handed && q in handed && r != q :: handed[r] != handed[q])
  }

  /** The request will not send a mint any more. */
  predicate Past(s: State, r: nat) {
    Minting(s, r) && (s.requests[r].mint.Submitted? || s.requests[r].mint.Uploaded?
                      || s.requests[r].mint.MintDone? || s.requests[r].mint.MintFailed?)
  }

  /** A sent mint was authorised: its recipient signed the nonce handed to its request. */
  ghost predicate SentOK(o: Oracle, s: State, tx: SentMint) {
    && Past(s, tx.request)
    && s.requests[tx.request].article == tx.article
    && tx.recipient == HexToAddress(s.requests[tx.request].address)
    && s.requests[tx.request].address == Checksum(o.keccak, tx.recipient)
    && SignatureOK(o, s, tx.request, s.requests[tx.request].address, s.requests[tx.request].signature)
  }

  ghost predicate SentAllOK(o: Oracle, s: State) {
    && (forall tx | tx in s.sent :: SentOK(o, s, tx))
    && (forall i, j | 0 <= i < j < |s.sent| :: s.sent[i].request != s.sent[j].request)
  }

  ghost predicate StoresOK(o: Oracle, s: State) {
    Sound(o.keccak, s.items) && Consistent(s.chain)
  }

  ghost predicate Inv(o: Oracle, s: State) {
    && StoresOK(o, s)
    && RowsOK(o, s)
    && FlagsOK(s)
    && RequestsOK(o, s)
    && MintsOK(s)
    && TokensOK(s)
    && NoncesOK(s.items, s.nonces, s.handed)
    && SentAllOK(o, s)
  }

  // ---------- how states grow ----------

  /**
   Nothing is taken back: registrations, tokens, pending promises, uploads and handed nonces stay; rows are
   changed or deleted but never change author, lose their flag, or come back.
   */
  ghost predicate Grows(s: State, t: State) {
    && (forall u | Registered(s.items, u) ::
          Registered(t.items, u) && t.items[(UserToWallet, u)] == s.items[(UserToWallet, u)])
    && s.articleIds <= t.articleIds && s.nonces <= t.nonces
    && Promised(s) <= Promised(t) && s.objects <= t.objects
    && (forall r | r in s.handed :: r in t.handed && t.handed[r] == s.handed[r])
    && (forall a | a in t.rows && a in s.articleIds ::
          a in s.rows && t.rows[a].author == s.rows[a].author && (s.rows[a].tokenized ==> t.rows[a].tokenized))
  }

  lemma GrowsTransitively(s: State, t: State, u: State)
    requires Grows(s, t) && Grows(t, u)
    ensures Grows(s, u)
  {
    hide Promised;
  }

  lemma WalletStays(s: State, t: State, user: string)
    requires Grows(s, t) && GetAddressByID(s.items, user).Ok?
    ensures GetAddressByID(t.items, user) == GetAddressByID(s.items, user)
  {
    hide Promised, HexToAddress;
  }

  lemma BelongsStays(s: State, t: State, article: string, account: Address)
    requires Grows(s, t) && article in s.articleIds && Belongs(s, article, account)
    ensures Belongs(t, article, account)
  {
    hide Promised, HexToAddress;
    if article in t.rows {
      WalletStays(s, t, s.rows[article].author);
    }
  }

  lemma SnapshotStays(o: Oracle, s: State, t: State, row: Row, article: string)
    requires Grows(s, t) && SnapshotOK(o, s, row, article)
    ensures SnapshotOK(o, t, row, article)
  {
    hide Promised, Documents.UpToDate;
  }

  lemma RequestStays(o: Oracle, s: State, t: State, r: nat, q: Request)
    requires Grows(s, t) && RequestOK(o, s, r, q)
    requires r in t.handed ==> r in s.handed || !(q.MintRequest? && q.mint.LookedUp?)
    ensures RequestOK(o, t, r, q)
  {
    hide Promised, SnapshotOK, SignedBy, Checksum, HexToAddress;
    match q {
      case MintRequest(address, signature, article, phase) =>
        match phase {
          case Loaded(row) => SnapshotStays(o, s, t, row, article);
          case AuthorChecked(row) =>
            SnapshotStays(o, s, t, row, article);
            WalletStays(s, t, row.author);
          case Submitted(row) => SnapshotStays(o, s, t, row, article);
          case Uploaded(row) => SnapshotStays(o, s, t, row, article);
          case _ =>
        }
      case EditRequest(_, article, _, step) =>
        match step {
          case RowRead(row) => SnapshotStays(o, s, t, row, article);
          case OwnerRead(row, _) => SnapshotStays(o, s, t, row, article);
          case Authorized(row) => SnapshotStays(o, s, t, row, article);
          case _ =>
        }
    }
  }

  // ---------- carrying the invariant over a step ----------

  /** A request keeps what it was asked for, and once it cannot send a mint it stays so. */
  predicate SameTask(q: Request, p: Request) {
    match (q, p)
    case (MintRequest(a, sg, ar, m), MintRequest(a', sg', ar', m')) =>
      a == a' && sg == sg' && ar == ar'
      && ((m.Submitted? || m.Uploaded? || m.MintDone? || m.MintFailed?)
          ==> (m'.Submitted? || m'.Uploaded? || m'.MintDone? || m'.MintFailed?))
    case (EditRequest(e, ar, d, _), EditRequest(e', ar', d', _)) => e == e' && ar == ar' && d == d'
    case _ => false
  }

  /** Between the two states only request `r` may have advanced or appeared. */
  ghost predicate OnlyAdvances(s: State, t: State, r: nat) {
    && (forall q | q in t.requests && q != r :: q in s.requests && t.requests[q] == s.requests[q])
    && (forall q | q in s.requests :: q in t.requests && SameTask(s.requests[q], t.requests[q]))
  }

  lemma RequestsStay(o: Oracle, s: State, t: State, r: nat)
    requires RequestsOK(o, s) && Grows(s, t) && OnlyAdvances(s, t, r)
    requires r in t.requests ==> RequestOK(o, t, r, t.requests[r])
    requires t.handed.Keys <= s.handed.Keys + {r} && (r in t.handed ==> r in t.requests)
    ensures RequestsOK(o, t)
  {
    forall q | q in t.requests ensures RequestOK(o, t, q, t.requests[q]) {
      if q != r {
        hide RequestOK, Grows, SameTask;
        RequestStays(o, s, t, q, s.requests[q]);
      }
    }
  }

  lemma MintsStay(s: State, t: State)
    requires MintsOK(s) && Grows(s, t)
    requires forall tx | tx in t.pending :: tx in s.pending
    ensures MintsOK(t)
  {
    forall tx | tx in t.pending ensures MintOK(t, tx) {
      BelongsStays(s, t, tx.article, tx.recipient);
    }
  }

  lemma TokensStay(s: State, t: State)
    requires Consistent(s.chain) && TokensOK(s) && Grows(s, t) && t.chain == s.chain
    ensures TokensOK(t)
  {
    forall a | a in t.chain.tokenIdOf ensures TokenOK(t, a) {
      assert TokenOK(s, a);
      if TokenId(s.chain, a) !in s.chain.moved {
        BelongsStays(s, t, a, OwnerOfArticle(s.chain, a));
      }
    }
  }

  lemma SentStays(o: Oracle, s: State, t: State, r: nat)
    requires SentAllOK(o, s) && Grows(s, t) && OnlyAdvances(s, t, r) && t.sent == s.sent
    ensures SentAllOK(o, t)
  {
    hide Promised, SignedBy, Checksum, HexToAddress;
    forall tx | tx in t.sent ensures SentOK(o, t, tx) {
      assert SentOK(o, s, tx);
      assert SameTask(s.requests[tx.request], t.requests[tx.request]);
    }
  }

  /** A step that only changes one request. */
  lemma RequestOnly(o: Oracle, s: State, r: nat, q: Request)
    requires Inv(o, s) && RequestOK(o, s, r, q)
    requires r in s.requests ==> SameTask(s.requests[r], q)
    ensures Inv(o, s.(requests := s.requests[r := q])) && Grows(s, s.(requests := s.requests[r := q]))
  {
    var t := s.(requests := s.requests[r := q]);
    assert Grows(s, t) && OnlyAdvances(s, t, r) by {
      forall p | p in s.requests ensures SameTask(s.requests[p], t.requests[p]) {
        SameTaskReflexive(s.requests[p]);
      }
    }
    assert RequestOK(o, t, r, q) by {
      RequestStays(o, s, t, r, q);
    }
    hide RequestOK, SameTask, NoncesOK, StoresOK, Grows, OnlyAdvances;
    RequestsStay(o, s, t, r);
    MintsStay(s, t);
    assert TokensOK(t) by {
      assert Consistent(s.chain) by { StoresGive(o, s); }
      TokensStay(s, t);
    }
    SentStays(o, s, t, r);
    assert StoresOK(o, t) by { StoresGive(o, s); }
  }

  lemma StoresGive(o: Oracle, s: State)
    requires StoresOK(o, s)
    ensures Consistent(s.chain) && Sound(o.keccak, s.items)
    ensures forall rs :: StoresOK(o, s.(requests := rs))
  {
  }

  lemma SameTaskReflexive(q: Request)
    ensures SameTask(q, q)
  {
  }
}
