/**
 The article and NFT services as methods over their stores. Each method, run by itself, is shown to make
 the steps of `Protocol` one after another.
 */
module Services {
  import opened Basics
  import opened Hex
  import opened Signature
  import Contract
  import opened Wallets
  import Documents
  import opened Articles
  import Metadata
  import opened Protocol
  import opened Scenarios

  class Backend {
    const oracle: Oracle
    const table: DynamoTable
    const contract: Contract.Knowtfolio
    var rows: map<string, Row>
    var pending: seq<SentMint>
    var objects: set<string>

    constructor (oracle: Oracle, table: DynamoTable, contract: Contract.Knowtfolio)
      ensures rows == map[] && pending == [] && objects == {}
      ensures this.oracle == oracle && this.table == table && this.contract == contract
    {
      this.oracle, this.table, this.contract := oracle, table, contract;
      rows, pending, objects := map[], [], {};
    }

    /** The stores are those of the protocol state `s`. */
    ghost predicate Mirrors(s: State)
      reads this, table, contract
    {
      && s.rows == rows && s.pending == pending && s.objects == objects
      && s.items == table.items && s.chain == contract.View()
    }

    // ----- articles -----

    method CreateArticle(userID: string, id: string, title: string, content: string, ghost s: State) returns (row: Row)
      requires Mirrors(s)
      modifies this`rows
      ensures row == Row(id, userID, false, Documents.Doc(title, content, title + "\n" + oracle.stripTags(content)))
      ensures Mirrors(CreateStep(oracle, s, id, userID, title, content))
    {
      var document := new Documents.Document.New(oracle, title, content);
      row := Row(id, userID, false, document.Value());
      rows := rows[id := row];
    }

    /** `Read`: the article and its owner. */
    method Read(id: string) returns (r: Result<(Row, OwnerInfo)>)
      requires contract.Valid()
      ensures id !in rows ==> r == Err(ArticleNotFound)
      ensures id in rows ==> r.Ok? == ReadOwner(oracle.keccak, rows[id], contract.View(), table.items).Ok?
      ensures r.Ok? ==> r.value.0 == rows[id]
      ensures r.Ok? ==> ReadOwner(oracle.keccak, rows[id], contract.View(), table.items) == Ok(r.value.1)
    {
      if id !in rows {
        return Err(ArticleNotFound);
      }
      var target := rows[id];
      if target.tokenized {
        var owner := contract.GetOwnerOfArticle(target.id);
        if owner == ZERO_ADDRESS {
          return Err(TokenMissing);
        }
        var ownerID :- GetIDByAddress(oracle.keccak, table.items, owner);
        return Ok((target, OwnerInfo(ownerID, Some(owner))));
      }
      var originalAuthorAddr := GetAddressByID(table.items, target.author);
      match originalAuthorAddr {
        case Ok(a) => return Ok((target, OwnerInfo(target.author, Some(a))));
        case Err(e) =>
          if e != ItemNotFound {
            return Err(e);
          }
          return Ok((target, OwnerInfo(target.author, None)));
      }
    }

    method CheckEditor(editorID: string, target: Row, requireNFT: bool) returns (r: Result<()>)
      requires contract.Valid()
      ensures r == AuthorizeEdit(oracle.keccak, editorID, target, requireNFT, contract.View(), table.items)
    {
      var isAuthorized := false;
      if target.tokenized {
        var ownerAddr := contract.GetOwnerOfArticle(target.id);
        var ownerID :- GetIDByAddress(oracle.keccak, table.items, ownerAddr);
        isAuthorized := editorID == ownerID;
      } else if !requireNFT {
        isAuthorized := editorID == target.author;
      }
      return if isAuthorized then Ok(()) else Err(Unauthorized);
    }

    method UpdateArticle(request: nat, userID: string, id: string, change: Documents.Change, ok: bool, ghost s: State)
        returns (r: Result<Row>)
      requires Mirrors(s) && contract.Valid() && request !in s.requests
      requires id in rows ==> rows[id].id == id
      modifies this`rows
      ensures Mirrors(EditAlone(oracle, s, request, userID, id, Update(change), ok))
      ensures r.Ok? <==> EditSucceeded(EditAlone(oracle, s, request, userID, id, Update(change), ok), request)
      ensures r == Err(ArticleNotFound) <== id !in old(rows)
      ensures r.Ok? ==> id in old(rows) && id in rows && r.value == rows[id] == old(rows)[id].(doc := rows[id].doc)
      ensures r.Ok? ==>
        var before := old(rows)[id].doc;
        var title := if change.title.Some? then change.title.value else before.title;
        var content := if change.content.Some? then change.content.value else before.content;
        before.rawText == before.title + "\n" + oracle.stripTags(before.content) ==>
          rows[id].doc == Documents.Doc(title, content, title + "\n" + oracle.stripTags(content))
    {
      EditAloneSteps(oracle, s, request, userID, id, Update(change), ok);
      hide EditAlone, EditSucceeded, AuthorizeEdit;
      if id !in rows {
        return Err(ArticleNotFound);
      }
      var target := rows[id];
      var _ :- CheckEditor(userID, target, false);
      var document := new Documents.Document.Load(oracle, target.doc);
      document.SetTitleIfPresent(change.title);
      document.SetContentIfPresent(change.content);
      if !ok {
        return Err(RemoteFailure);
      }
      target := target.(doc := document.Value());
      rows := rows[id := target];
      return Ok(target);
    }

    method DeleteArticle(request: nat, userID: string, id: string, ok: bool, ghost s: State) returns (r: Result<Row>)
      requires Mirrors(s) && contract.Valid() && request !in s.requests
      requires id in rows ==> rows[id].id == id
      modifies this`rows
      ensures Mirrors(EditAlone(oracle, s, request, userID, id, Remove, ok))
      ensures r.Ok? <==> EditSucceeded(EditAlone(oracle, s, request, userID, id, Remove, ok), request)
      ensures r == Err(ArticleNotFound) <== id !in old(rows)
      ensures r.Ok? ==> id in old(rows) && r.value == old(rows)[id] && rows == old(rows) - {id}
    {
      EditAloneSteps(oracle, s, request, userID, id, Remove, ok);
      hide EditAlone, EditSucceeded, AuthorizeEdit;
      if id !in rows {
        return Err(ArticleNotFound);
      }
      var target := rows[id];
      var _ :- CheckEditor(userID, target, false);
      if !ok {
        return Err(RemoteFailure);
      }
      rows := rows - {target.id};
      return Ok(target);
    }

    // ----- tokens -----

    /** The first half of `CreateForArticle`: whose nonce was signed. The nonce is spent whatever follows. */
    method Authenticate(request: nat, address: string, signature: string, ghost article: string, nonce: Hash,
                        ghost s: State) returns (r: Result<()>)
      requires Mirrors(s) && request !in s.requests
      modifies table
      ensures Mirrors(Opened(oracle, s, request, address, signature, article, nonce))
      ensures r.Err? ==> r.error.Unauthenticated?
      ensures var t := Opened(oracle, s, request, address, signature, article, nonce);
        && Minting(t, request)
        && t.requests[request] == MintRequest(address, signature, article, t.requests[request].mint)
        && (if r.Ok? then t.requests[request].mint.Verified? else t.requests[request].mint.MintFailed?)
    {
      hide SignedBy, HexToAddress, HexToHash, HashHex, Checksum;
      var userID := GetIDByAddress(oracle.keccak, table.items, HexToAddress(address));
      if userID.Err? {
        return Err(Unauthenticated(userID.error));
      }
      var taken := table.GetAndReplaceNonceByID(userID.value, nonce);
      if taken.Err? {
        return Err(Unauthenticated(taken.error));
      }
      var verdict := VerifySignature(oracle, address, signature, MINT_MESSAGE, Some(taken.value));
      if verdict.Err? {
        return Err(Unauthenticated(verdict.error));
      }
      return Ok(());
    }

    /** `CreateForArticle` */
    method CreateForArticle(request: nat, address: string, signature: string, articleID: string, nonce: Hash,
                            remote: Remote, ghost s: State) returns (r: Result<SentMint>)
      requires Mirrors(s) && request !in s.requests
      requires articleID in rows ==> rows[articleID].id == articleID
      modifies this, table
      ensures Mirrors(Alone(oracle, s, request, address, signature, articleID, nonce, remote))
      ensures r.Ok? <==> MintSucceeded(Alone(oracle, s, request, address, signature, articleID, nonce, remote), request)
      ensures r.Ok? ==>
        && r.value == SentMint(request, HexToAddress(address), articleID) && pending == old(pending) + [r.value]
        && articleID in old(rows) && rows == old(rows)[articleID := old(rows)[articleID].(tokenized := true)]
        && objects == old(objects) + {Metadata.MetadataKey(articleID)}
    {
      hide SignedBy, HexToAddress, Checksum, Metadata.MetadataKey, Opened, MintSucceeded, LoadRowStep,
        CheckAuthorStep, SendMintStep, UploadStep, SaveFlagStep;
      var authenticated := Authenticate(request, address, signature, articleID, nonce, s);
      FinishOutcome(oracle, Opened(oracle, s, request, address, signature, articleID, nonce), request, remote);
      hide Alone;
      if authenticated.Err? {
        return Err(authenticated.error);
      }

      if articleID !in rows {
        return Err(ArticleNotFound);
      }
      var target := rows[articleID];

      var originalAuthorAddress :- GetAddressByID(table.items, target.author);
      if Checksum(oracle.keccak, originalAuthorAddress) != address {
        return Err(Unauthorized);
      }

      if !remote.send {
        return Err(RemoteFailure);
      }
      var mintTx := SentMint(request, HexToAddress(address), target.id);
      pending := pending + [mintTx];

      if !remote.upload {
        return Err(RemoteFailure);
      }
      objects := objects + {Metadata.MetadataKey(target.id)};

      if !remote.save {
        return Err(RemoteFailure);
      }
      rows := rows[target.id := target.(tokenized := true)];
      return Ok(mintTx);
    }
  }
}
