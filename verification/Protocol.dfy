/**
 Minting, editing and trading as steps over the shared state: the wallet table, the article rows, the
 chain with its pending mints, and the metadata bucket. Each remote operation of a request is a step of
 its own, so requests interleave with each other, with the chain and with failures at any point; what a
 request has already sent to the chain or the bucket survives its failure.
 */
module Protocol {
  import opened Basics
  import opened Hex
  import opened Signature
  import opened Ledger
  import opened Wallets
  import Documents
  import opened Articles
  import Metadata

  const MINT_MESSAGE := "Mint NFT"

  // ---------- requests ----------

  /** Where a `CreateForArticle` call stands; `row` is the article as its transaction read it. */
  datatype MintPhase =
    | LookedUp(user: string)
    | Verified
    | Loaded(row: Row)
    | AuthorChecked(row: Row)
    | Submitted(row: Row)
    | Uploaded(row: Row)
    | MintDone
    | MintFailed(error: Error)

  datatype Edit = Update(change: Documents.Change) | Remove

  /** Where an `Update` or `Delete` call stands; `owner` is what the chain answered. */
  datatype EditPhase =
    | RowRead(row: Row)
    | OwnerRead(row: Row, owner: Address)
    | Authorized(row: Row)
    | EditDone(row: Row)
    | EditFailed(error: Error)

  datatype Request =
    | MintRequest(address: string, signature: string, article: string, mint: MintPhase)
    | EditRequest(editor: string, article: string, edit: Edit, step: EditPhase)

  /** A mint transaction sent to the chain by a request. */
  datatype SentMint = SentMint(request: nat, recipient: Address, article: string)

  /**
   The first six fields are the stores and the requests in flight. The others remember the past: ids and
   nonces already generated, nonces handed to requests, all mints ever sent, and articles for which a sent
   mint was mined without leaving a token.
   */
  datatype State = State(
    items: Items,
    rows: map<string, Row>,
    chain: Ledger,
    pending: seq<SentMint>,
    objects: set<string>,
    requests: map<nat, Request>,
    articleIds: set<string>,
    nonces: set<Hash>,
    handed: map<nat, Hash>,
    sent: seq<SentMint>,
    lost: set<string>)

  const INITIAL := State(map[], map[], EMPTY, [], {}, map[], {}, {}, map[], [], {})

  // ---------- steps ----------

  datatype Action =
    | Register(user: string, wallet: string, nonce: Hash)
    | Create(id: string, author: string, title: string, content: string)
    | BeginMint(r: nat, address: string, signature: string, article: string)
    | TakeNonce(r: nat, nonce: Hash)
    | LoadRow(r: nat)
    | CheckAuthor(r: nat)
    | SendMint(r: nat, ok: bool)
    | UploadMetadata(r: nat, ok: bool)
    | SaveFlag(r: nat, ok: bool)
    | BeginEdit(r: nat, editor: string, article: string, edit: Edit)
    | AskChain(r: nat)
    | ResolveOwner(r: nat)
    | CommitEdit(r: nat, ok: bool)
    | Mine(i: nat, calls: seq<Call>, accepts: bool)
    | Trade(call: Call)

  predicate Minting(s: State, r: nat) {
    r in s.requests && s.requests[r].MintRequest?
  }

  predicate Editing(s: State, r: nat) {
    r in s.requests && s.requests[r].EditRequest?
  }

  function At(s: State, r: nat, phase: MintPhase): State
    requires Minting(s, r)
  {
    s.(requests := s.requests[r := s.requests[r].(mint := phase)])
  }

  function AtEdit(s: State, r: nat, step: EditPhase): State
    requires Editing(s, r)
  {
    s.(requests := s.requests[r := s.requests[r].(step := step)])
  }

  function RegisterStep(s: State, user: string, wallet: string, nonce: Hash): State {
    if PutAllowed(s.items, user, wallet)
    then s.(items := AfterPut(s.items, user, wallet, nonce), nonces := s.nonces + {nonce})
    else s
  }

  function CreateStep(o: Oracle, s: State, id: string, author: string, title: string, content: string): State {
    s.(rows := s.rows[id := Row(id, author, false, Documents.NewDoc(o, title, content))], articleIds := s.articleIds + {id})
  }

  /** `GetIDByAddress` of the request's address. */
  function BeginMintStep(o: Oracle, s: State, r: nat, address: string, signature: string, article: string): State {
    if r in s.requests then s
    else
      var phase := match GetIDByAddress(o.keccak, s.items, HexToAddress(address))
        case Ok(user) => LookedUp(user)
        case Err(e) => MintFailed(Unauthenticated(e));
      s.(requests := s.requests[r := MintRequest(address, signature, article, phase)])
  }

  /** `GetAndReplaceNonceByID`, then `VerifySignature` over the nonce it returned. */
  ghost function TakeNonceStep(o: Oracle, s: State, r: nat, nonce: Hash): State {
    if !Minting(s, r) || !s.requests[r].mint.LookedUp? then s
    else
      var q := s.requests[r];
      var after := s.(items := AfterReplace(s.items, q.mint.user, nonce), nonces := s.nonces + {nonce});
      match GetNonceByID(s.items, q.mint.user)
      case Err(e) => At(after, r, MintFailed(Unauthenticated(ValueFieldNotFound)))
      case Ok(taken) =>
        At(after.(handed := s.handed[r := taken]), r,
           if SignedBy(o, q.address, q.signature, MINT_MESSAGE, Some(taken)) then Verified
           else MintFailed(Unauthenticated(BadSignature)))
  }

  /** The transaction reads the article. */
  function LoadRowStep(s: State, r: nat): State {
    if !Minting(s, r) || !s.requests[r].mint.Verified? then s
    else if s.requests[r].article !in s.rows then At(s, r, MintFailed(ArticleNotFound))
    else At(s, r, Loaded(s.rows[s.requests[r].article]))
  }

  /** `GetAddressByID` of the author, compared with the request's address as strings. */
  function CheckAuthorStep(o: Oracle, s: State, r: nat): State {
    if !Minting(s, r) || !s.requests[r].mint.Loaded? then s
    else
      var row := s.requests[r].mint.row;
      match GetAddressByID(s.items, row.author)
      case Err(e) => At(s, r, MintFailed(e))
      case Ok(a) =>
        At(s, r, if Checksum(o.keccak, a) == s.requests[r].address then AuthorChecked(row) else MintFailed(Unauthorized))
  }

  function SendMintStep(s: State, r: nat, ok: bool): State {
    if !Minting(s, r) || !s.requests[r].mint.AuthorChecked? then s
    else if !ok then At(s, r, MintFailed(RemoteFailure))
    else
      var row := s.requests[r].mint.row;
      var tx := SentMint(r, HexToAddress(s.requests[r].address), row.id);
      At(s.(pending := s.pending + [tx], sent := s.sent + [tx]), r, Submitted(row))
  }

  function UploadStep(s: State, r: nat, ok: bool): State {
    if !Minting(s, r) || !s.requests[r].mint.Submitted? then s
    else if !ok then At(s, r, MintFailed(RemoteFailure))
    else
      var row := s.requests[r].mint.row;
      At(s.(objects := s.objects + {Metadata.MetadataKey(row.id)}), r, Uploaded(row))
  }

  /** The article row as the mint transaction read it is still current. */
  predicate SameArticle(s: State, row: Row) {
    row.id in s.rows && s.rows[row.id].author == row.author && s.rows[row.id].tokenized == row.tokenized
  }

  /** The transaction sets the flag and commits, unless the article changed under it. */
  function SaveFlagStep(s: State, r: nat, ok: bool): State {
    if !Minting(s, r) || !s.requests[r].mint.Uploaded? then s
    else
      var row := s.requests[r].mint.row;
      if !ok then At(s, r, MintFailed(RemoteFailure))
      else if !SameArticle(s, row) then At(s, r, MintFailed(Conflict))
      else At(s.(rows := s.rows[row.id := s.rows[row.id].(tokenized := true)]), r, MintDone)
  }

  /** The row is read; without the flag the author is the editor, with it the chain is asked next. */
  function BeginEditStep(s: State, r: nat, editor: string, article: string, edit: Edit): State {
    if r in s.requests then s
    else
      var step :=
        if article !in s.rows then EditFailed(ArticleNotFound)
        else if s.rows[article].tokenized then RowRead(s.rows[article])
        else if editor == s.rows[article].author then Authorized(s.rows[article])
        else EditFailed(Unauthorized);
      s.(requests := s.requests[r := EditRequest(editor, article, edit, step)])
  }

  function AskChainStep(s: State, r: nat): State {
    if !Editing(s, r) || !s.requests[r].step.RowRead? then s
    else
      var row := s.requests[r].step.row;
      AtEdit(s, r, OwnerRead(row, OwnerOfArticle(s.chain, row.id)))
  }

  function ResolveOwnerStep(o: Oracle, s: State, r: nat): State {
    if !Editing(s, r) || !s.requests[r].step.OwnerRead? then s
    else
      var row := s.requests[r].step.row;
      match GetIDByAddress(o.keccak, s.items, s.requests[r].step.owner)
      case Err(e) => AtEdit(s, r, EditFailed(e))
      case Ok(user) => AtEdit(s, r, if user == s.requests[r].editor then Authorized(row) else EditFailed(Unauthorized))
  }

  /** `Update` commits if the row is the one it read; `Delete` is a statement of its own. */
  function CommitEditStep(o: Oracle, s: State, r: nat, ok: bool): State {
    if !Editing(s, r) || !s.requests[r].step.Authorized? then s
    else
      var row := s.requests[r].step.row;
      if !ok then AtEdit(s, r, EditFailed(RemoteFailure))
      else match s.requests[r].edit
        case Remove => AtEdit(s.(rows := s.rows - {row.id}), r, EditDone(row))
        case Update(change) =>
          if row.id !in s.rows || s.rows[row.id] != row then AtEdit(s, r, EditFailed(Conflict))
          else AtEdit(s.(rows := s.rows[row.id := row.(doc := Documents.Edited(o, row.doc, change))]), r, EditDone(row))
  }

  /** A pending mint is executed; it may be refused, and then leaves nothing behind. */
  function MineStep(s: State, i: nat, calls: seq<Call>, accepts: bool): State {
    if i >= |s.pending| then s
    else
      var tx := s.pending[i];
      var chain := Mint(s.chain, tx.recipient, tx.article, calls, accepts);
      s.(chain := chain, pending := s.pending[..i] + s.pending[i + 1..],
         lost := if tx.article in chain.tokenIdOf then s.lost else s.lost + {tx.article})
  }

  ghost function Next(o: Oracle, s: State, a: Action): State {
    match a
    case Register(user, wallet, nonce) => RegisterStep(s, user, wallet, nonce)
    case Create(id, author, title, content) => CreateStep(o, s, id, author, title, content)
    case BeginMint(r, address, signature, article) => BeginMintStep(o, s, r, address, signature, article)
    case TakeNonce(r, nonce) => TakeNonceStep(o, s, r, nonce)
    case LoadRow(r) => LoadRowStep(s, r)
    case CheckAuthor(r) => CheckAuthorStep(o, s, r)
    case SendMint(r, ok) => SendMintStep(s, r, ok)
    case UploadMetadata(r, ok) => UploadStep(s, r, ok)
    case SaveFlag(r, ok) => SaveFlagStep(s, r, ok)
    case BeginEdit(r, editor, article, edit) => BeginEditStep(s, r, editor, article, edit)
    case AskChain(r) => AskChainStep(s, r)
    case ResolveOwner(r) => ResolveOwnerStep(o, s, r)
    case CommitEdit(r, ok) => CommitEditStep(o, s, r, ok)
    case Mine(i, calls, accepts) => MineStep(s, i, calls, accepts)
    case Trade(call) => s.(chain := Apply(s.chain, call))
  }

  /**
   What is taken for granted: generated nonces and article ids are new, ids are not empty, and wallets are
   registered in EIP-55 form and are not the zero address.
   */
  predicate Admissible(o: Oracle, s: State, a: Action) {
    match a
    case Register(_, wallet, nonce) =>
      IsCanonical(o.keccak, wallet) && HexToAddress(wallet) != ZERO_ADDRESS && nonce !in s.nonces
    case Create(id, _, _, _) => id != "" && id !in s.articleIds
    case TakeNonce(_, nonce) => nonce !in s.nonces
    case _ => true
  }
}
