/** The promises of the system over whole runs: any interleaving of requests, chain steps and failures. */
module Safety {
  import opened Basics
  import opened Hex
  import opened Signature
  import opened Ledger
  import opened Wallets
  import Documents
  import opened Articles
  import Metadata
  import Contract
  import opened Search
  import opened Protocol
  import opened Invariants
  import opened Steps

  /** The actions are taken one after another; inadmissible ones do not happen. */
  ghost function Run(o: Oracle, s: State, actions: seq<Action>): State
    decreases |actions|
  {
    if actions == [] then s
    else Run(o, if Admissible(o, s, actions[0]) then Next(o, s, actions[0]) else s, actions[1..])
  }

  ghost function Reached(o: Oracle, actions: seq<Action>): State {
    Run(o, INITIAL, actions)
  }

  lemma {:induction false} RunKeeps(o: Oracle, s: State, actions: seq<Action>)
    requires Inv(o, s)
    ensures Inv(o, Run(o, s, actions)) && Grows(s, Run(o, s, actions))
    decreases |actions|
  {
    hide Inv, Grows, Next, Admissible;
    if actions == [] {
      GrowsReflexive(s);
    } else if Admissible(o, s, actions[0]) {
      var t := Next(o, s, actions[0]);
      NextKeeps(o, s, actions[0]);
      RunKeeps(o, t, actions[1..]);
      GrowsTransitively(s, t, Run(o, t, actions[1..]));
    } else {
      RunKeeps(o, s, actions[1..]);
    }
  }

  lemma {:induction false} RunsCompose(o: Oracle, s: State, first: seq<Action>, second: seq<Action>)
    ensures Run(o, s, first + second) == Run(o, Run(o, s, first), second)
    decreases |first|
  {
    hide Next, Admissible;
    if first == [] {
      assert first + second == second;
    } else {
      assert (first + second)[1..] == first[1..] + second;
      RunsCompose(o, if Admissible(o, s, first[0]) then Next(o, s, first[0]) else s, first[1..], second);
    }
  }

  lemma InitialHolds(o: Oracle)
    ensures Inv(o, INITIAL)
  {
  }

  lemma ReachedHolds(o: Oracle, actions: seq<Action>)
    ensures Inv(o, Reached(o, actions))
  {
    InitialHolds(o);
    hide Inv;
    RunKeeps(o, INITIAL, actions);
  }

  /**
   In every reachable state the contract is consistent, the registry is a bijection with a nonce for exactly
   the registered users, and the two look-ups are inverse to each other.
   */
  lemma StoresAreSound(o: Oracle, actions: seq<Action>)
    ensures var s := Reached(o, actions);
      Consistent(s.chain) && Paired(s.items) && MutualLookups(o.keccak, s.items)
  {
    ReachedHolds(o, actions);
    StoresGive(o, Reached(o, actions));
    hide Inv, Run, Consistent, MutualLookups;
    LookupsInverseIffCanonical(o.keccak, Reached(o, actions).items);
  }

  // ---------- the flag, the chain and the bucket ----------

  /**
   In every run, an article flagged as tokenized has its metadata uploaded, and its token exists, or its mint
   is pending, or its mint was mined in vain.
   */
  lemma FlagIsBacked(o: Oracle, actions: seq<Action>, id: string)
    ensures var s := Reached(o, actions);
      id in s.rows && s.rows[id].tokenized ==>
        && Metadata.MetadataKey(id) in s.objects
        && (Minted(s.chain, id) || (exists tx :: tx in s.pending && tx.article == id) || id in s.lost)
  {
    ReachedHolds(o, actions);
    var s := Reached(o, actions);
    if id in s.rows && s.rows[id].tokenized {
      assert Backed(s, id);
      if id in s.chain.tokenIdOf {
        assert TokenId(s.chain, id) in s.chain.uri;
      }
    }
  }

  /** Every mint that is mined is accepted by its recipient. */
  predicate AllAccepted(actions: seq<Action>) {
    forall i | 0 <= i < |actions| :: actions[i].Mine? ==> actions[i].accepts
  }

  lemma {:induction false} NothingIsLost(o: Oracle, s: State, actions: seq<Action>)
    requires Inv(o, s) && s.lost == {} && AllAccepted(actions)
    ensures Run(o, s, actions).lost == {}
    decreases |actions|
  {
    hide Inv, Next, Admissible;
    if actions != [] && Admissible(o, s, actions[0]) {
      NextKeeps(o, s, actions[0]);
      NextLosesNothing(o, s, actions[0]);
      NothingIsLost(o, Next(o, s, actions[0]), actions[1..]);
    } else if actions != [] {
      NothingIsLost(o, s, actions[1..]);
    }
  }

  lemma MintStepsLoseNothing(o: Oracle, s: State, r: nat, nonce: Hash, ok: bool)
    ensures TakeNonceStep(o, s, r, nonce).lost == LoadRowStep(s, r).lost == CheckAuthorStep(o, s, r).lost == s.lost
    ensures SendMintStep(s, r, ok).lost == UploadStep(s, r, ok).lost == SaveFlagStep(s, r, ok).lost == s.lost
  {
    hide SignedBy, GetAddressByID, GetNonceByID, AfterReplace, Checksum, HexToAddress, SameArticle, Metadata.MetadataKey;
  }

  lemma EditStepsLoseNothing(o: Oracle, s: State, r: nat, ok: bool)
    ensures AskChainStep(s, r).lost == ResolveOwnerStep(o, s, r).lost == CommitEditStep(o, s, r, ok).lost == s.lost
  {
    hide GetIDByAddress, OwnerOfArticle, Documents.Edited;
  }

  lemma MiningLosesNothing(o: Oracle, s: State, i: nat, calls: seq<Call>)
    requires Inv(o, s) && s.lost == {}
    ensures MineStep(s, i, calls, true).lost == {}
  {
    if i < |s.pending| {
      PendingMint(o, s, i);
      hide Inv, Consistent, Mint;
      AcceptedMintLeavesToken(s.chain, s.pending[i].recipient, s.pending[i].article, calls);
    }
  }

  lemma NextLosesNothing(o: Oracle, s: State, a: Action)
    requires Inv(o, s) && s.lost == {} && (a.Mine? ==> a.accepts)
    ensures Next(o, s, a).lost == {}
  {
    hide Inv, TakeNonceStep, LoadRowStep, CheckAuthorStep, SendMintStep, UploadStep, SaveFlagStep, AskChainStep,
      ResolveOwnerStep, CommitEditStep, MineStep, GetIDByAddress, HexToAddress, AfterPut, PutAllowed, Apply;
    match a {
      case TakeNonce(r, nonce) => MintStepsLoseNothing(o, s, r, nonce, true);
      case LoadRow(r) => MintStepsLoseNothing(o, s, r, 0, true);
      case CheckAuthor(r) => MintStepsLoseNothing(o, s, r, 0, true);
      case SendMint(r, ok) => MintStepsLoseNothing(o, s, r, 0, ok);
      case UploadMetadata(r, ok) => MintStepsLoseNothing(o, s, r, 0, ok);
      case SaveFlag(r, ok) => MintStepsLoseNothing(o, s, r, 0, ok);
      case AskChain(r) => EditStepsLoseNothing(o, s, r, true);
      case ResolveOwner(r) => EditStepsLoseNothing(o, s, r, true);
      case CommitEdit(r, ok) => EditStepsLoseNothing(o, s, r, ok);
      case Mine(i, calls, _) => MiningLosesNothing(o, s, i, calls);
      case _ =>
    }
  }

  lemma PendingMint(o: Oracle, s: State, i: nat)
    requires Inv(o, s) && i < |s.pending|
    ensures Consistent(s.chain) && s.pending[i].article != "" && s.pending[i].recipient != ZERO_ADDRESS
  {
    assert MintOK(s, s.pending[i]);
  }

  lemma AcceptedMintLeavesToken(l: Ledger, recipient: Address, article: string, calls: seq<Call>)
    requires Consistent(l) && article != "" && recipient != ZERO_ADDRESS
    ensures article in Mint(l, recipient, article, calls, true).tokenIdOf
  {
    MintKeepsInvariant(l, recipient, article, calls, true);
  }

  /** If recipients accept their mints, a flagged article has its token or will get it from a pending mint. */
  lemma FlagMeansToken(o: Oracle, actions: seq<Action>, id: string)
    requires AllAccepted(actions)
    ensures var s := Reached(o, actions);
      id in s.rows && s.rows[id].tokenized ==> Minted(s.chain, id) || exists tx :: tx in s.pending && tx.article == id
  {
    InitialHolds(o);
    hide Inv, Run, AllAccepted;
    NothingIsLost(o, INITIAL, actions);
    FlagIsBacked(o, actions, id);
  }

  /**
   In every run, following the token URI of a flagged article through the CDN leads to an object that has
   been uploaded. Generated ids contain neither ? nor #.
   */
  lemma TokenURILeadsToObject(o: Oracle, actions: seq<Action>, id: string)
    requires '?' !in id && '#' !in id
    ensures var s := Reached(o, actions);
      var uri := Contract.TokenURIOf(s.chain.uri, TokenId(s.chain, id));
      id in s.rows && s.rows[id].tokenized && Minted(s.chain, id) ==>
        Metadata.ObjectKey(Metadata.Rewritten(Metadata.PathOf(uri))) in s.objects
  {
    ReachedHolds(o, actions);
    var s := Reached(o, actions);
    StoresGive(o, s);
    FlagIsBacked(o, actions, id);
    hide Inv, Run, Metadata.PathOf, Metadata.ObjectKey, Metadata.MetadataKey;
    if Minted(s.chain, id) {
      assert s.chain.uri[TokenId(s.chain, id)] == id && id != "";
      hide Consistent, Sound;
      Metadata.URILeadsToMetadata(id);
    }
  }

  /** While a row lives its flag never returns to false and its author never changes; deleted rows stay deleted. */
  lemma FlagIsForever(o: Oracle, actions: seq<Action>, more: seq<Action>, id: string)
    ensures var s := Reached(o, actions); var t := Run(o, s, more);
      id in s.articleIds && id in t.rows ==>
        && id in s.rows && t.rows[id].author == s.rows[id].author
        && (s.rows[id].tokenized ==> t.rows[id].tokenized)
  {
    ReachedHolds(o, actions);
    RunKeeps(o, Reached(o, actions), more);
    hide Inv, Run, Promised;
  }

  /** In every run, every article's search text is its present title, a newline and its present content without tags. */
  lemma SearchTextIsCurrent(o: Oracle, actions: seq<Action>, id: string)
    ensures var s := Reached(o, actions);
      id in s.rows ==>
        s.rows[id].id == id
        && s.rows[id].doc.rawText == s.rows[id].doc.title + "\n" + o.stripTags(s.rows[id].doc.content)
  {
    ReachedHolds(o, actions);
    hide Run;
  }

  /**
   In every run, a keyword of one line without wildcards finds exactly the articles in whose title or stripped
   content it occurs.
   */
  lemma KeywordFindsTitleOrContent(o: Oracle, actions: seq<Action>, id: string, word: string)
    requires id in Reached(o, actions).rows
    requires Documents.Plain(word) && '\n' !in word
    ensures var doc := Reached(o, actions).rows[id].doc;
      Documents.Like("%" + word + "%", doc.rawText)
      <==> (Documents.Contains(doc.title, word) || Documents.Contains(o.stripTags(doc.content), word))
  {
    SearchTextIsCurrent(o, actions, id);
    hide Run, Documents.Plain, Documents.Like, Documents.Contains;
    var doc := Reached(o, actions).rows[id].doc;
    Documents.WordsOfEitherPart(doc.title, o.stripTags(doc.content), word);
    Documents.LikeIsContains(word, doc.rawText);
  }

  // ---------- ownership ----------

  /** The article's token has never been transferred, if it exists at all. */
  predicate NeverMoved(s: State, id: string) {
    TokenId(s.chain, id) !in s.chain.moved
  }

  lemma UnmovedTokenIsAuthors(o: Oracle, s: State, id: string)
    requires Inv(o, s) && id in s.rows && Minted(s.chain, id) && NeverMoved(s, id)
    ensures GetAddressByID(s.items, s.rows[id].author) == Ok(OwnerOfArticle(s.chain, id))
  {
    assert TokenOK(s, id);
  }

  lemma UnmovedOwner(o: Oracle, s: State, id: string, user: string)
    requires Inv(o, s) && id in s.rows && NeverMoved(s, id)
    ensures Owns(user, s.rows[id], s.chain, s.items)
      <==> user == s.rows[id].author && (s.rows[id].tokenized ==> Minted(s.chain, id))
  {
    StoresGive(o, s);
    assert s.rows[id].id == id;
    if s.rows[id].tokenized && Minted(s.chain, id) {
      UnmovedTokenIsAuthors(o, s, id);
      hide Inv, Sound, Consistent, NeverMoved, HexToAddress;
      if Owns(user, s.rows[id], s.chain, s.items) {
        OneWalletOneUser(o.keccak, s.items, user, s.rows[id].author);
      }
    }
  }

  /**
   As long as an article's token has not been transferred, only its author may edit it, so tokenizing alone
   never changes who may; and the author may, except while the flag is set without a token.
   */
  lemma TokenizingKeepsTheEditor(o: Oracle, actions: seq<Action>, id: string, user: string)
    requires id in Reached(o, actions).rows && NeverMoved(Reached(o, actions), id)
    ensures var s := Reached(o, actions);
      AuthorizeEdit(o.keccak, user, s.rows[id], false, s.chain, s.items).Ok?
      <==> (user == s.rows[id].author && (s.rows[id].tokenized ==> Minted(s.chain, id)))
  {
    ReachedHolds(o, actions);
    var s := Reached(o, actions);
    StoresGive(o, s);
    hide Run, Inv, Sound, Consistent, NeverMoved, Owns, AuthorizeEdit, Minted;
    UnmovedOwner(o, s, id, user);
    EditorIsOwner(o.keccak, user, s.rows[id], false, s.chain, s.items);
  }

  lemma OneWalletOneUser(k: Keccak, items: Items, u: string, v: string)
    requires Sound(k, items) && GetAddressByID(items, u).Ok? && GetAddressByID(items, u) == GetAddressByID(items, v)
    ensures u == v
  {
    CanonicalLookups(k, items, u, GetAddressByID(items, u).value);
    CanonicalLookups(k, items, v, GetAddressByID(items, u).value);
  }

  // ---------- nonces and signatures ----------

  /** In no run is a nonce handed to two requests, whether or not they succeed later. */
  lemma NoncesAreHandedOnce(o: Oracle, actions: seq<Action>, r: nat, q: nat)
    ensures var s := Reached(o, actions);
      r in s.handed && q in s.handed && s.handed[r] == s.handed[q] ==> r == q
  {
    ReachedHolds(o, actions);
    hide Run, HexToHash, HashHex;
  }

  /**
   Every mint ever sent to the chain was asked for, in EIP-55 form, by a signature of its recipient over the
   nonce handed to that one request; no two sent mints rest on the same nonce.
   */
  lemma MintsAreAuthorised(o: Oracle, actions: seq<Action>, i: nat)
    requires i < |Reached(o, actions).sent|
    ensures var s := Reached(o, actions); var tx := s.sent[i];
      && Minting(s, tx.request) && tx.request in s.handed
      && s.requests[tx.request].article == tx.article
      && s.requests[tx.request].address == Checksum(o.keccak, tx.recipient)
      && SignedBy(o, s.requests[tx.request].address, s.requests[tx.request].signature, MINT_MESSAGE,
                  Some(s.handed[tx.request]))
    ensures var s := Reached(o, actions);
      forall j | 0 <= j < |s.sent| && j != i ::
        s.sent[j].request in s.handed && s.handed[s.sent[j].request] != s.handed[s.sent[i].request]
  {
    ReachedHolds(o, actions);
    var s := Reached(o, actions);
    hide Run, SignedBy, HexToAddress, Checksum, RequestOK, FlagsOK, RowsOK, Consistent, Sound;
    assert s.sent[i] in s.sent && SentOK(o, s, s.sent[i]);
    forall j | 0 <= j < |s.sent| && j != i
      ensures s.sent[j].request in s.handed && s.handed[s.sent[j].request] != s.handed[s.sent[i].request]
    {
      assert s.sent[j] in s.sent && SentOK(o, s, s.sent[j]);
      NoncesAreHandedOnce(o, actions, s.sent[i].request, s.sent[j].request);
    }
  }

  // ---------- searching in reachable states ----------

  /** A row can be stray only after its token, mined without the flag being saved, was transferred. */
  lemma StrayTokenWasMoved(o: Oracle, s: State, id: string, user: string)
    requires Inv(o, s) && id in s.rows && Stray(s.rows[id], user, s.chain, s.items)
    ensures Minted(s.chain, id) && !NeverMoved(s, id)
  {
    assert s.rows[id].id == id;
    StoresGive(o, s);
    assert Minted(s.chain, id) && GetAddressByID(s.items, user) == Ok(OwnerOfArticle(s.chain, id)) by {
      hide Inv, HexToAddress;
    }
    if NeverMoved(s, id) {
      UnmovedTokenIsAuthors(o, s, id);
      hide Inv, HexToAddress;
      OneWalletOneUser(o.keccak, s.items, user, s.rows[id].author);
    }
  }

  /**
   In every reachable state, searching by owner lists exactly the rows the user owns, provided no row without
   the flag stands for a token that has been transferred.
   */
  lemma SearchIsExactUnlessMoved(o: Oracle, actions: seq<Action>, listing: seq<Row>, user: string, keywords: seq<string>)
    requires var s := Reached(o, actions);
      && (forall row | row in listing :: row.id in s.rows && s.rows[row.id] == row)
      && (forall row | row in listing && !row.tokenized :: NeverMoved(s, row.id))
    ensures var s := Reached(o, actions);
      && Searchable(o.keccak, listing, user, s.chain, s.items, keywords)
      && (forall row | row in listing :: !Stray(row, user, s.chain, s.items))
      && Select(listing, OwnedBy(s.chain, s.items, user, keywords))
           == OwnedRows(listing, user, s.chain, s.items, keywords)
  {
    var s := Reached(o, actions);
    ReachedHolds(o, actions);
    StoresGive(o, s);
    WalletsAreNotZero(o.keccak, s.items, user);
    hide Run, Inv, HeldByUser;
    SearchRefinesOwnership(listing, user, s.chain, s.items, keywords);
    forall row | row in listing ensures !Stray(row, user, s.chain, s.items) {
      if Stray(row, user, s.chain, s.items) {
        StrayTokenWasMoved(o, s, row.id, user);
      }
    }
  }
}
