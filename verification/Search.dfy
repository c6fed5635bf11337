/**
 Searching articles: the condition on the owner, keywords, paging and the owner of each entry.
 Rows come in the order of the requested sort column; loading and counting see the same rows.
 */
module Search {
  import opened Basics
  import opened Hex
  import opened Ledger
  import opened Contract
  import opened Wallets
  import opened Documents
  import opened Articles
  import Metadata

  const TWO_63 := 0x8000_0000_0000_0000
  const TWO_64 := 0x1_0000_0000_0000_0000

  type UInt = n: nat | n < 0x1_0000_0000_0000_0000

  datatype SearchRequest = SearchRequest(keywords: Option<string>, ownedBy: Option<string>, pageNum: UInt, pageSize: UInt)

  datatype Entry = Entry(id: string, title: string, owner: OwnerInfo)

  datatype Found = Found(entries: seq<Entry>, total: nat)

  // ---------- conditions ----------

  /** The owned-by condition: a user and the articles whose tokens the chain lists for the user's wallet. */
  datatype Criteria = Criteria(owner: Option<(string, set<string>)>, keywords: seq<string>)

  predicate MatchesOwner(row: Row, owner: Option<(string, set<string>)>) {
    match owner
    case None => true
    case Some((user, held)) => row.id in held || (!row.tokenized && row.author == user)
  }

  predicate Matches(row: Row, c: Criteria) {
    MatchesOwner(row, c.owner) && MatchesKeywords(row.doc.rawText, c.keywords)
  }

  function Select(rows: seq<Row>, c: Criteria): seq<Row> {
    if rows == [] then []
    else (if Matches(rows[0], c) then [rows[0]] else []) + Select(rows[1..], c)
  }

  lemma {:induction false} SelectAgain(rows: seq<Row>, c: Criteria, keyword: string)
    ensures Select(Select(rows, c), Criteria(None, [keyword])) == Select(rows, c.(keywords := c.keywords + [keyword]))
  {
    if rows != [] {
      SelectAgain(rows[1..], c, keyword);
      var tail := Select(rows[1..], c);
      if Matches(rows[0], c) {
        assert ([rows[0]] + tail)[1..] == tail;
      } else {
        assert [] + tail == tail;
      }
    }
  }

  lemma {:induction false} SelectMembers(rows: seq<Row>, c: Criteria, row: Row)
    ensures row in Select(rows, c) <==> row in rows && Matches(row, c)
  {
    if rows != [] {
      SelectMembers(rows[1..], c, row);
      assert rows == [rows[0]] + rows[1..];
    }
  }

  // ---------- paging ----------

  /** Go's conversion of a 64-bit unsigned integer to a signed one. */
  function ToSigned(n: UInt): int {
    if n < TWO_63 then n else n - TWO_64
  }

  /** `int((PageNum - 1) * PageSize)` */
  function Offset(pageNum: UInt, pageSize: UInt): int {
    ToSigned(((pageNum + TWO_64 - 1) % TWO_64 * pageSize) % TWO_64)
  }

  /** Offsets and limits that are not positive are ignored. */
  function PageOf<T>(xs: seq<T>, offset: int, limit: int): seq<T> {
    var rest := if offset <= 0 then xs else if offset <= |xs| then xs[offset..] else [];
    if limit <= 0 || limit >= |rest| then rest else rest[..limit]
  }

  /** The offset is the intended one exactly up to the page that starts below 2^63. */
  lemma OffsetIsExact(pageNum: UInt, pageSize: UInt)
    requires pageNum >= 1 && pageSize >= 1
    ensures Offset(pageNum, pageSize) == (pageNum - 1) * pageSize
      <==> pageNum <= (TWO_63 - 1) / pageSize + 1
  {
    var p := pageNum - 1;
    assert (pageNum + TWO_64 - 1) % TWO_64 == p;
    var product := p * pageSize;
    assert product >= 0;
    assert product < TWO_63 <==> p <= (TWO_63 - 1) / pageSize by {
      QuotientBound(p, pageSize, TWO_63 - 1);
    }
    assert Offset(pageNum, pageSize) == ToSigned(product % TWO_64);
  }

  lemma QuotientBound(p: nat, d: nat, n: nat)
    requires d >= 1
    ensures p * d <= n <==> p <= n / d
  {
    if p <= n / d {
      MulMonotone(p, n / d, d);
    } else {
      MulMonotone(n / d + 1, p, d);
    }
  }

  lemma MulMonotone(x: nat, y: nat, d: nat)
    requires x <= y
    ensures x * d <= y * d
  {
  }

  /** Past that page the product wraps: these requests, meant to be far beyond the end, get pages one and two. */
  lemma WrappedPageStartsOver<T>(xs: seq<T>)
    ensures PageOf(xs, Offset(TWO_63 + 1, 1), 1) == PageOf(xs, 0, 1)
    ensures PageOf(xs, Offset(TWO_63 + 2, 2), 2) == PageOf(xs, 2, 2)
  {
  }

  /**
   The right page of a non-empty list is shown exactly up to that page, and beyond it when the offset, reduced
   to 64 bits, still lies past the end of the list and below 2^63.
   */
  lemma PageIsRight<T>(xs: seq<T>, pageNum: UInt, pageSize: UInt)
    requires 0 < |xs| < TWO_63 && pageNum >= 1 && 1 <= pageSize < TWO_63
    ensures PageOf(xs, Offset(pageNum, pageSize), ToSigned(pageSize)) == PageOf(xs, (pageNum - 1) * pageSize, pageSize)
      <==> (pageNum <= (TWO_63 - 1) / pageSize + 1 || |xs| <= (pageNum - 1) * pageSize % TWO_64 < TWO_63)
  {
    var exact := (pageNum - 1) * pageSize;
    OffsetIsExact(pageNum, pageSize);
    QuotientBound(pageNum - 1, pageSize, TWO_63 - 1);
    assert Offset(pageNum, pageSize) == ToSigned(exact % TWO_64);
    if exact >= TWO_63 {
      PageEmptyIff(xs, Offset(pageNum, pageSize), pageSize);
      PageEmptyIff(xs, exact, pageSize);
    }
  }

  lemma PageEmptyIff<T>(xs: seq<T>, offset: int, limit: nat)
    requires xs != [] && limit >= 1
    ensures PageOf(xs, offset, limit) == [] <==> offset >= |xs|
  {
  }

  /** The entries on pages 1..n. */
  function Pages<T>(xs: seq<T>, pageSize: UInt, n: nat): seq<T>
    requires n < TWO_64
  {
    if n == 0 then [] else Pages(xs, pageSize, n - 1) + PageOf(xs, Offset(n, pageSize), ToSigned(pageSize))
  }

  /** The web client's number of pages: the total divided by the page size, rounded up. */
  function PageCount(total: nat, pageSize: nat): nat
    requires pageSize >= 1
  {
    (total + pageSize - 1) / pageSize
  }

  lemma {:induction false} PagesArePrefix<T>(xs: seq<T>, pageSize: UInt, n: nat)
    requires 1 <= pageSize < TWO_63 && |xs| < TWO_63 && n <= PageCount(|xs|, pageSize)
    ensures PageCount(|xs|, pageSize) <= |xs|
    ensures Pages(xs, pageSize, n) == xs[..if n * pageSize <= |xs| then n * pageSize else |xs|]
  {
    CountBound(|xs|, pageSize);
    if n > 0 {
      PagesArePrefix(xs, pageSize, n - 1);
      PageStart(|xs|, pageSize, n);
      PageIsSlice(xs, (n - 1) * pageSize, pageSize);
    }
  }

  /** Every page up to the count starts inside the list, at its exact offset. */
  lemma PageStart(total: nat, pageSize: UInt, n: nat)
    requires 1 <= pageSize && total < TWO_63 && 1 <= n <= PageCount(total, pageSize)
    ensures n < TWO_64 && Offset(n, pageSize) == (n - 1) * pageSize < total
    ensures n * pageSize == (n - 1) * pageSize + pageSize
  {
    CountBound(total, pageSize);
    QuotientBound(n, pageSize, total + pageSize - 1);
    assert n * pageSize == (n - 1) * pageSize + pageSize;
    QuotientBound(n - 1, pageSize, TWO_63 - 1);
    OffsetIsExact(n, pageSize);
  }

  lemma CountBound(total: nat, pageSize: nat)
    requires pageSize >= 1
    ensures PageCount(total, pageSize) <= total
  {
    QuotientBound(PageCount(total, pageSize), pageSize, total + pageSize - 1);
    if PageCount(total, pageSize) > total {
      MulMonotone(total + 1, PageCount(total, pageSize), pageSize);
      assert (total + 1) * pageSize == total * pageSize + pageSize;
      MulMonotone(1, pageSize, total);
      assert false;
    }
  }

  lemma CountCovers(total: nat, pageSize: nat)
    requires pageSize >= 1
    ensures PageCount(total, pageSize) * pageSize >= total
  {
    var x := total + pageSize - 1;
    assert x == x / pageSize * pageSize + x % pageSize;
  }

  lemma PageIsSlice<T>(xs: seq<T>, start: nat, size: nat)
    requires start < |xs| && 1 <= size
    ensures PageOf(xs, start, size) == xs[start..if start + size <= |xs| then start + size else |xs|]
    ensures xs[..start] + PageOf(xs, start, size) == xs[..if start + size <= |xs| then start + size else |xs|]
  {
  }

  /** Turning all the pages shows every matching article exactly once, in order. */
  lemma AllPages<T>(xs: seq<T>, pageSize: UInt)
    requires 1 <= pageSize < TWO_63 && |xs| < TWO_63
    ensures PageCount(|xs|, pageSize) <= |xs|
    ensures Pages(xs, pageSize, PageCount(|xs|, pageSize)) == xs
  {
    var n := PageCount(|xs|, pageSize);
    PagesArePrefix(xs, pageSize, n);
    CountCovers(|xs|, pageSize);
  }

  // ---------- the owned-by condition against ownership ----------

  /** The articles whose token the account holds. */
  function HeldArticles(l: Ledger, account: Address): set<string> {
    set a | a in l.tokenIdOf && OwnerOfArticle(l, a) == account
  }

  /** The articles the chain lists for a user: none if the user has no wallet. */
  function HeldByUser(l: Ledger, items: Items, user: string): set<string> {
    match GetAddressByID(items, user)
    case Ok(a) => HeldArticles(l, a)
    case Err(_) => {}
  }

  /** The simple form of the search: keep the rows the user owns. */
  ghost function OwnedRows(rows: seq<Row>, user: string, l: Ledger, items: Items, keywords: seq<string>): seq<Row> {
    if rows == [] then []
    else
      (if Owns(user, rows[0], l, items) && MatchesKeywords(rows[0].doc.rawText, keywords) then [rows[0]] else [])
      + OwnedRows(rows[1..], user, l, items, keywords)
  }

  /** A token of the row's article exists in the user's wallet although the row is not flagged as tokenized. */
  predicate Stray(row: Row, user: string, l: Ledger, items: Items) {
    !row.tokenized && row.author != user && row.id in HeldByUser(l, items, user)
  }

  ghost function WithoutStray(rows: seq<Row>, user: string, l: Ledger, items: Items): seq<Row> {
    if rows == [] then []
    else (if Stray(rows[0], user, l, items) then [] else [rows[0]]) + WithoutStray(rows[1..], user, l, items)
  }

  /** The condition misses no owned row; what it adds are the stray ones. */
  lemma ConditionAgainstOwnership(row: Row, user: string, l: Ledger, items: Items)
    requires Consistent(l)
    requires GetAddressByID(items, user) != Ok(ZERO_ADDRESS)
    ensures MatchesOwner(row, Some((user, HeldByUser(l, items, user))))
      <==> Owns(user, row, l, items) || Stray(row, user, l, items)
    ensures !(Owns(user, row, l, items) && Stray(row, user, l, items))
  {
    hide HexToAddress;
  }

  function OwnedBy(l: Ledger, items: Items, user: string, keywords: seq<string>): Criteria {
    Criteria(Some((user, HeldByUser(l, items, user))), keywords)
  }

  /** Dropping the stray rows from what the search finds gives the owned rows, in order. */
  lemma {:induction false} SearchMissesNothing(rows: seq<Row>, user: string, l: Ledger, items: Items,
                                               keywords: seq<string>)
    requires Consistent(l) && GetAddressByID(items, user) != Ok(ZERO_ADDRESS)
    ensures WithoutStray(Select(rows, OwnedBy(l, items, user, keywords)), user, l, items)
      == OwnedRows(rows, user, l, items, keywords)
  {
    hide Consistent, MatchesKeywords, MatchesOwner, Owns, Stray, HeldByUser, GetAddressByID;
    if rows != [] {
      var row := rows[0];
      var found := Select(rows[1..], OwnedBy(l, items, user, keywords));
      ConditionAgainstOwnership(row, user, l, items);
      SearchMissesNothing(rows[1..], user, l, items, keywords);
      StrayDropped(found, row, user, l, items);
      assert [] + found == found;
    }
  }

  /**
   Searching by owner gives exactly the rows the user owns if and only if no row that passes the keywords is
   stray.
   */
  lemma SearchRefinesOwnership(rows: seq<Row>, user: string, l: Ledger, items: Items, keywords: seq<string>)
    requires Consistent(l) && GetAddressByID(items, user) != Ok(ZERO_ADDRESS)
    ensures Select(rows, OwnedBy(l, items, user, keywords)) == OwnedRows(rows, user, l, items, keywords)
      <==> forall row | row in rows && MatchesKeywords(row.doc.rawText, keywords) :: !Stray(row, user, l, items)
  {
    var found := Select(rows, OwnedBy(l, items, user, keywords));
    SearchMissesNothing(rows, user, l, items, keywords);
    AllKeptIffNoneStray(found, user, l, items);
    hide Consistent, MatchesKeywords, MatchesOwner, Owns, Stray, HeldByUser, GetAddressByID, Select, OwnedRows, WithoutStray;
    forall row ensures row in found && Stray(row, user, l, items)
      <==> row in rows && MatchesKeywords(row.doc.rawText, keywords) && Stray(row, user, l, items)
    {
      SelectMembers(rows, OwnedBy(l, items, user, keywords), row);
      ConditionAgainstOwnership(row, user, l, items);
    }
  }

  lemma StrayDropped(rows: seq<Row>, row: Row, user: string, l: Ledger, items: Items)
    ensures WithoutStray([row] + rows, user, l, items)
      == (if Stray(row, user, l, items) then [] else [row]) + WithoutStray(rows, user, l, items)
  {
    assert ([row] + rows)[1..] == rows;
  }

  lemma {:induction false} AllKeptIffNoneStray(rows: seq<Row>, user: string, l: Ledger, items: Items)
    ensures WithoutStray(rows, user, l, items) == rows <==> forall row | row in rows :: !Stray(row, user, l, items)
    ensures |WithoutStray(rows, user, l, items)| <= |rows|
  {
    hide Stray;
    if rows != [] {
      AllKeptIffNoneStray(rows[1..], user, l, items);
      assert rows == [rows[0]] + rows[1..];
      var kept := WithoutStray(rows[1..], user, l, items);
      assert ([rows[0]] + kept)[1..] == kept && [] + kept == kept;
    }
  }

  /** Where the flag and the chain agree on every row, no row is stray. */
  lemma NoStrayWhenFlagsAgree(rows: seq<Row>, user: string, l: Ledger, items: Items)
    requires Consistent(l)
    requires forall row | row in rows :: row.tokenized <==> Minted(l, row.id)
    ensures forall row | row in rows :: !Stray(row, user, l, items)
  {
    hide HexToAddress;
  }

  // ---------- the whole search ----------

  function EntryFor(k: Keccak, row: Row, l: Ledger, items: Items, ownedBy: Option<string>): Result<Entry> {
    match ownedBy
    case Some(user) =>
      Ok(Entry(row.id, row.doc.title, OwnerInfo(user, AddressOrNone(items, user))))
    case None =>
      var owner :- EntryOwner(k, row, l, items);
      Ok(Entry(row.id, row.doc.title, owner))
  }

  function AddressOrNone(items: Items, user: string): Option<Address> {
    match GetAddressByID(items, user)
    case Ok(a) => Some(a)
    case Err(_) => None
  }

  /** The conditions of the query; a request without keywords adds none for them. */
  function CriteriaOf(l: Ledger, items: Items, request: SearchRequest): Criteria {
    Criteria(
      if request.ownedBy.Some? then Some((request.ownedBy.value, HeldByUser(l, items, request.ownedBy.value))) else None,
      if request.keywords.Some? then SplitWords(request.keywords.value) else [])
  }

  /** The answer is the requested page of the listed rows, in their order, and their number. */
  ghost predicate ShowsPage(found: Found, listed: seq<Row>, request: SearchRequest) {
    var page := PageOf(listed, Offset(request.pageNum, request.pageSize), ToSigned(request.pageSize));
    && found.total == |listed|
    && |found.entries| == |page|
    && forall i | 0 <= i < |page| :: found.entries[i].id == page[i].id && found.entries[i].title == page[i].doc.title
  }

  /** Each entry shows the owner of its row. */
  ghost predicate ShowsOwners(k: Keccak, found: Found, listed: seq<Row>, l: Ledger, items: Items, request: SearchRequest) {
    var page := PageOf(listed, Offset(request.pageNum, request.pageSize), ToSigned(request.pageSize));
    && |found.entries| == |page|
    && forall i | 0 <= i < |page| :: Ok(found.entries[i].owner) == EntryOwner(k, page[i], l, items)
  }

  /** Each entry shows the user with the user's wallet. */
  ghost predicate ShowsUser(found: Found, user: string, items: Items) {
    forall e | e in found.entries :: e.owner.id == user && AddressIsWallet(e.owner, items)
  }

  /** The rows whose search text contains every one of the words. */
  ghost function Containing(rows: seq<Row>, words: seq<string>): seq<Row> {
    if rows == [] then []
    else
      (if forall w | w in words :: Contains(rows[0].doc.rawText, w) then [rows[0]] else []) + Containing(rows[1..], words)
  }

  lemma {:induction false} ContainingMembers(rows: seq<Row>, words: seq<string>, row: Row)
    ensures row in Containing(rows, words) <==> row in rows && forall w | w in words :: Contains(row.doc.rawText, w)
  {
    hide Contains;
    if rows != [] {
      ContainingMembers(rows[1..], words, row);
      assert rows == [rows[0]] + rows[1..];
    }
  }

  /** Without an owner the conditions select the rows that contain every word of the plain keywords. */
  lemma {:induction false} SelectContaining(rows: seq<Row>, keywords: string)
    requires Plain(keywords)
    ensures Select(rows, Criteria(None, SplitWords(keywords))) == Containing(rows, SplitWords(keywords))
  {
    hide Contains, MatchesKeywords, SplitWords, Plain;
    if rows != [] {
      SelectContaining(rows[1..], keywords);
      KeywordsAreContained(rows[0].doc.rawText, keywords);
    }
  }

  lemma {:induction false} SelectAll(rows: seq<Row>)
    ensures Select(rows, Criteria(None, [])) == rows
  {
    if rows != [] {
      SelectAll(rows[1..]);
      assert rows == [rows[0]] + rows[1..];
    }
  }

  /** With an owner it makes no difference whether the keywords or the ownership is looked at first. */
  lemma {:induction false} OwnedContaining(rows: seq<Row>, user: string, l: Ledger, items: Items, keywords: string)
    requires Plain(keywords)
    ensures OwnedRows(rows, user, l, items, SplitWords(keywords))
      == OwnedRows(Containing(rows, SplitWords(keywords)), user, l, items, [])
  {
    hide Contains, SplitWords, Plain, Owns;
    if rows != [] {
      OwnedContaining(rows[1..], user, l, items, keywords);
      KeywordsAreContained(rows[0].doc.rawText, keywords);
      assert MatchesKeywords(rows[0].doc.rawText, []);
      hide MatchesKeywords;
      var rest := Containing(rows[1..], SplitWords(keywords));
      assert ([rows[0]] + rest)[1..] == rest && [] + rest == rest;
    }
  }

  /** The registry is sound and no row that passes the keywords is stray. */
  ghost predicate Searchable(k: Keccak, rows: seq<Row>, user: string, l: Ledger, items: Items, keywords: seq<string>) {
    && Sound(k, items)
    && forall row | row in rows && MatchesKeywords(row.doc.rawText, keywords) :: !Stray(row, user, l, items)
  }

  /** The articles on the requested page. */
  function PageRows(rows: seq<Row>, l: Ledger, items: Items, request: SearchRequest): seq<Row> {
    PageOf(Select(rows, CriteriaOf(l, items, request)), Offset(request.pageNum, request.pageSize), ToSigned(request.pageSize))
  }

  method LoadOwnedIDs(contract: Knowtfolio, owner: Address) returns (ids: set<string>)
    requires contract.Valid() && owner != ZERO_ADDRESS
    ensures ids == HeldArticles(contract.View(), owner)
  {
    var urls := contract.GetArticleIdsOwnedBy(owner);
    var list := new string[|urls|](i requires 0 <= i < |urls| => urls[i]);
    for i := 0 to |urls|
      invariant forall j | 0 <= j < i :: list[j] == Metadata.TrimPrefix(urls[j], BASE_URI)
      invariant forall j | i <= j < |urls| :: list[j] == urls[j]
    {
      list[i] := Metadata.TrimPrefix(list[i], BASE_URI);
    }
    ids := set a | a in list[..];
    forall a ensures a in ids <==> a in HeldArticles(contract.View(), owner) {
      TrimmedIsHeld(contract.View(), owner, urls, list[..], a);
    }
  }

  lemma TrimmedIsHeld(l: Ledger, owner: Address, urls: seq<string>, ids: seq<string>, a: string)
    requires Consistent(l) && owner != ZERO_ADDRESS && |ids| == |urls|
    requires forall x :: multiset(urls)[BASE_URI + x] == if OwnerOfArticle(l, x) == owner then 1 else 0
    requires forall s | s in urls :: BASE_URI <= s
    requires forall j | 0 <= j < |urls| :: ids[j] == Metadata.TrimPrefix(urls[j], BASE_URI)
    ensures a in ids <==> a in HeldArticles(l, owner)
  {
    Metadata.TrimmedURIIsArticle(a);
    assert a in HeldArticles(l, owner) <==> BASE_URI + a in urls by {
      assert BASE_URI + a in multiset(urls) <==> BASE_URI + a in urls;
    }
    if a in ids {
      var j :| 0 <= j < |ids| && ids[j] == a;
      assert urls[j] in urls;
      assert urls[j] == BASE_URI + a;
    }
    if BASE_URI + a in urls {
      var j :| 0 <= j < |urls| && urls[j] == BASE_URI + a;
      assert ids[j] == a;
    }
  }

  /** The number of rows that meet the conditions and the entries of the requested page, or a failure. */
  ghost predicate Answers(r: Result<Found>, k: Keccak, rows: seq<Row>, l: Ledger, items: Items, request: SearchRequest) {
    var page := PageRows(rows, l, items, request);
    && (r.Ok? ==> r.value.total == |Select(rows, CriteriaOf(l, items, request))| && |r.value.entries| == |page|
                  && forall i | 0 <= i < |page| :: Ok(r.value.entries[i]) == EntryFor(k, page[i], l, items, request.ownedBy))
    && ((request.ownedBy.Some? ==> GetAddressByID(items, request.ownedBy.value) != Ok(ZERO_ADDRESS)) ==>
          (r.Ok? <==> forall row | row in page :: EntryFor(k, row, l, items, request.ownedBy).Ok?))
  }

  lemma AnswerWithoutOwner(r: Result<Found>, k: Keccak, rows: seq<Row>, l: Ledger, items: Items, request: SearchRequest)
    requires Answers(r, k, rows, l, items, request) && r.Ok? && request.ownedBy.None?
    requires request.keywords.Some? ==> Plain(request.keywords.value)
    ensures var listed := if request.keywords.Some? then Containing(rows, SplitWords(request.keywords.value)) else rows;
      ShowsPage(r.value, listed, request) && ShowsOwners(k, r.value, listed, l, items, request)
  {
    if request.keywords.Some? {
      SelectContaining(rows, request.keywords.value);
    } else {
      SelectAll(rows);
    }
    hide Select, Containing, PageOf, Offset, ToSigned, EntryOwner, SplitWords, Plain, EntryFor, HeldByUser;
    var page := PageRows(rows, l, items, request);
    forall i | 0 <= i < |page|
      ensures r.value.entries[i].id == page[i].id && r.value.entries[i].title == page[i].doc.title
      ensures Ok(r.value.entries[i].owner) == EntryOwner(k, page[i], l, items)
    {
      EntryWithoutOwner(k, page[i], l, items, r.value.entries[i]);
    }
  }

  lemma EntryWithoutOwner(k: Keccak, row: Row, l: Ledger, items: Items, entry: Entry)
    requires Ok(entry) == EntryFor(k, row, l, items, None)
    ensures entry.id == row.id && entry.title == row.doc.title && Ok(entry.owner) == EntryOwner(k, row, l, items)
  {
    hide EntryOwner;
  }

  lemma AnswerByOwner(r: Result<Found>, k: Keccak, rows: seq<Row>, l: Ledger, items: Items, request: SearchRequest,
                      user: string, words: seq<string>)
    requires Answers(r, k, rows, l, items, request) && Consistent(l) && request.ownedBy == Some(user)
    requires words == if request.keywords.Some? then SplitWords(request.keywords.value) else []
    requires Searchable(k, rows, user, l, items, words)
    ensures r.Ok? && ShowsPage(r.value, OwnedRows(rows, user, l, items, words), request) && ShowsUser(r.value, user, items)
  {
    WalletsAreNotZero(k, items, user);
    SearchRefinesOwnership(rows, user, l, items, words);
    hide Select, OwnedRows, Consistent, Sound, Stray, MatchesKeywords, PageOf, Offset, ToSigned, SplitWords, EntryFor,
      HeldByUser, GetAddressByID, AddressIsWallet;
    var page := PageRows(rows, l, items, request);
    assert page == PageOf(OwnedRows(rows, user, l, items, words), Offset(request.pageNum, request.pageSize),
                          ToSigned(request.pageSize));
    forall row | row in page ensures EntryFor(k, row, l, items, Some(user)).Ok? {
      EntryWithOwner(k, row, l, items, user);
    }
    forall i | 0 <= i < |page|
      ensures r.value.entries[i].id == page[i].id && r.value.entries[i].title == page[i].doc.title
      ensures r.value.entries[i].owner.id == user && AddressIsWallet(r.value.entries[i].owner, items)
    {
      EntryWithOwner(k, page[i], l, items, user);
    }
  }

  lemma EntryWithOwner(k: Keccak, row: Row, l: Ledger, items: Items, user: string)
    ensures var entry := EntryFor(k, row, l, items, Some(user));
      && entry.Ok? && entry.value.id == row.id && entry.value.title == row.doc.title
      && entry.value.owner.id == user && AddressIsWallet(entry.value.owner, items)
  {
    hide HexToAddress;
  }

  /** In terms of the words in the texts: with plain keywords the rows are those the user owns among the ones found. */
  lemma PlainAnswerByOwner(r: Result<Found>, k: Keccak, rows: seq<Row>, l: Ledger, items: Items, request: SearchRequest,
                           user: string, listed: seq<Row>)
    requires Answers(r, k, rows, l, items, request) && Consistent(l) && request.ownedBy == Some(user)
    requires request.keywords.Some? ==> Plain(request.keywords.value)
    requires listed == if request.keywords.Some? then Containing(rows, SplitWords(request.keywords.value)) else rows
    requires Sound(k, items) && forall row | row in listed :: !Stray(row, user, l, items)
    ensures r.Ok? && ShowsPage(r.value, OwnedRows(listed, user, l, items, []), request) && ShowsUser(r.value, user, items)
  {
    var words := if request.keywords.Some? then SplitWords(request.keywords.value) else [];
    hide Contains, Consistent, Sound, Stray, PageOf, Offset, SplitWords, Plain, Answers, Owns, OwnedRows, Containing;
    forall row | row in rows && MatchesKeywords(row.doc.rawText, words) ensures row in listed {
      if request.keywords.Some? {
        KeywordsAreContained(row.doc.rawText, request.keywords.value);
        ContainingMembers(rows, words, row);
      }
    }
    if request.keywords.Some? {
      OwnedContaining(rows, user, l, items, request.keywords.value);
    }
    hide MatchesKeywords;
    AnswerByOwner(r, k, rows, l, items, request, user, words);
  }

  lemma WhatIsShown(r: Result<Found>, k: Keccak, rows: seq<Row>, l: Ledger, items: Items, request: SearchRequest)
    requires Answers(r, k, rows, l, items, request) && Consistent(l)
    ensures var listed := if request.keywords.Some? then Containing(rows, SplitWords(request.keywords.value)) else rows;
      && r.Ok? && request.ownedBy.None? && (request.keywords.Some? ==> Plain(request.keywords.value)) ==>
        ShowsPage(r.value, listed, request) && ShowsOwners(k, r.value, listed, l, items, request)
    ensures request.ownedBy.Some? ==>
      var listed := if request.keywords.Some? then Containing(rows, SplitWords(request.keywords.value)) else rows;
      var user := request.ownedBy.value;
      && (request.keywords.Some? ==> Plain(request.keywords.value))
      && Sound(k, items) && (forall row | row in listed :: !Stray(row, user, l, items)) ==>
        r.Ok? && ShowsPage(r.value, OwnedRows(listed, user, l, items, []), request) && ShowsUser(r.value, user, items)
    ensures request.ownedBy.Some? ==>
      var words := if request.keywords.Some? then SplitWords(request.keywords.value) else [];
      var user := request.ownedBy.value;
      Searchable(k, rows, user, l, items, words) ==>
        r.Ok? && ShowsPage(r.value, OwnedRows(rows, user, l, items, words), request) && ShowsUser(r.value, user, items)
  {
    hide Consistent, Sound, Stray, SplitWords, Plain, Answers, OwnedRows, Containing, Searchable, ShowsPage, ShowsUser,
      ShowsOwners;
    var listed := if request.keywords.Some? then Containing(rows, SplitWords(request.keywords.value)) else rows;
    var words := if request.keywords.Some? then SplitWords(request.keywords.value) else [];
    var plain := request.keywords.Some? ==> Plain(request.keywords.value);
    match request.ownedBy {
      case None =>
        if r.Ok? && plain {
          AnswerWithoutOwner(r, k, rows, l, items, request);
        }
      case Some(user) =>
        if plain && Sound(k, items) && forall row | row in listed :: !Stray(row, user, l, items) {
          PlainAnswerByOwner(r, k, rows, l, items, request, user, listed);
        }
        if Searchable(k, rows, user, l, items, words) {
          AnswerByOwner(r, k, rows, l, items, request, user, words);
        }
    }
  }

  /**
   `SearchForArticles`. It counts all rows that meet the conditions and lists those of the requested
   page with their owners, or fails where the owner of a listed row cannot be determined. With plain
   keywords these are the rows that contain every word; a search by owner shows those among them the
   user owns, unless one is stray.
   */
  method SearchForArticles(k: Keccak, rows: seq<Row>, contract: Knowtfolio, table: DynamoTable, request: SearchRequest)
      returns (r: Result<Found>)
    requires contract.Valid()
    ensures r == Err(RemoteFailure) <== request.ownedBy.Some?
      && GetAddressByID(table.items, request.ownedBy.value) == Ok(ZERO_ADDRESS)
    ensures Answers(r, k, rows, contract.View(), table.items, request)
    ensures var listed := if request.keywords.Some? then Containing(rows, SplitWords(request.keywords.value)) else rows;
      && r.Ok? && request.ownedBy.None? && (request.keywords.Some? ==> Plain(request.keywords.value)) ==>
        ShowsPage(r.value, listed, request) && ShowsOwners(k, r.value, listed, contract.View(), table.items, request)
    ensures request.ownedBy.Some? ==>
      var listed := if request.keywords.Some? then Containing(rows, SplitWords(request.keywords.value)) else rows;
      var user, l := request.ownedBy.value, contract.View();
      && (request.keywords.Some? ==> Plain(request.keywords.value))
      && Sound(k, table.items) && (forall row | row in listed :: !Stray(row, user, l, table.items)) ==>
        r.Ok? && ShowsPage(r.value, OwnedRows(listed, user, l, table.items, []), request)
        && ShowsUser(r.value, user, table.items)
    ensures request.ownedBy.Some? ==>
      var words := if request.keywords.Some? then SplitWords(request.keywords.value) else [];
      var user, l := request.ownedBy.value, contract.View();
      Searchable(k, rows, user, l, table.items, words) ==>
        r.Ok? && ShowsPage(r.value, OwnedRows(rows, user, l, table.items, words), request)
        && ShowsUser(r.value, user, table.items)
  {
    var owner := OwnerCondition(contract, table, request.ownedBy);
    match owner {
      case Err(e) => r := Err(e);
      case Ok(condition) =>
        var query := Select(rows, Criteria(condition, []));
        if request.keywords.Some? {
          query := AddKeywords(rows, condition, SplitWords(request.keywords.value));
        }
        r := ListEntries(k, query, contract, table, request);
    }
    WhatIsShown(r, k, rows, contract.View(), table.items, request);
  }

  /** The first part of the query: whose articles, and which of them the chain lists. */
  method OwnerCondition(contract: Knowtfolio, table: DynamoTable, ownedBy: Option<string>)
      returns (r: Result<Option<(string, set<string>)>>)
    requires contract.Valid()
    ensures ownedBy.None? ==> r == Ok(None)
    ensures ownedBy.Some? && GetAddressByID(table.items, ownedBy.value) == Ok(ZERO_ADDRESS) ==> r == Err(RemoteFailure)
    ensures ownedBy.Some? && GetAddressByID(table.items, ownedBy.value) != Ok(ZERO_ADDRESS) ==>
      r == Ok(Some((ownedBy.value, HeldByUser(contract.View(), table.items, ownedBy.value))))
  {
    if ownedBy.None? {
      return Ok(None);
    }
    var ownedArticleIDs: set<string> := {};
    var ownedByAddr := GetAddressByID(table.items, ownedBy.value);
    if ownedByAddr.Ok? {
      if ownedByAddr.value == ZERO_ADDRESS {
        return Err(RemoteFailure);
      }
      ownedArticleIDs := LoadOwnedIDs(contract, ownedByAddr.value);
    }
    return Ok(Some((ownedBy.value, ownedArticleIDs)));
  }

  /** The rest of the query: one clause for each keyword. */
  method AddKeywords(rows: seq<Row>, owner: Option<(string, set<string>)>, keywords: seq<string>) returns (query: seq<Row>)
    ensures query == Select(rows, Criteria(owner, keywords))
  {
    query := Select(rows, Criteria(owner, []));
    for i := 0 to |keywords|
      invariant query == Select(rows, Criteria(owner, keywords[..i]))
    {
      SelectAgain(rows, Criteria(owner, keywords[..i]), keywords[i]);
      assert keywords[..i + 1] == keywords[..i] + [keywords[i]];
      query := Select(query, Criteria(None, [keywords[i]]));
    }
    assert keywords[..|keywords|] == keywords;
  }

  /** The owner shown with a listed row. */
  method OwnerOf(k: Keccak, target: Row, contract: Knowtfolio, table: DynamoTable, ownedBy: Option<string>)
      returns (r: Result<OwnerInfo>)
    requires contract.Valid()
    ensures var entry := EntryFor(k, target, contract.View(), table.items, ownedBy);
      (r.Ok? <==> entry.Ok?) && (r.Ok? ==> entry == Ok(Entry(target.id, target.doc.title, r.value)))
  {
    match ownedBy {
      case Some(user) =>
        return Ok(OwnerInfo(user, AddressOrNone(table.items, user)));
      case None =>
        if target.tokenized {
          var address := contract.GetOwnerOfArticle(target.id);
          if address == ZERO_ADDRESS {
            return Err(TokenMissing);
          }
          var ownerID :- GetIDByAddress(k, table.items, address);
          return Ok(OwnerInfo(ownerID, Some(address)));
        }
        var address :- GetAddressByID(table.items, target.author);
        return Ok(OwnerInfo(target.author, Some(address)));
    }
  }

  /** The page of the query's rows, each with its owner, and the total. */
  method ListEntries(k: Keccak, query: seq<Row>, contract: Knowtfolio, table: DynamoTable, request: SearchRequest)
      returns (r: Result<Found>)
    requires contract.Valid()
    ensures var page := PageOf(query, Offset(request.pageNum, request.pageSize), ToSigned(request.pageSize));
      && (r.Ok? <==> forall row | row in page :: EntryFor(k, row, contract.View(), table.items, request.ownedBy).Ok?)
      && (r.Ok? ==>
            && r.value.total == |query| && |r.value.entries| == |page|
            && forall i | 0 <= i < |page| ::
                 Ok(r.value.entries[i]) == EntryFor(k, page[i], contract.View(), table.items, request.ownedBy))
  {
    hide EntryFor, Offset, ToSigned, PageOf;
    var targets := PageOf(query, Offset(request.pageNum, request.pageSize), ToSigned(request.pageSize));
    var entries: seq<Entry> := [];
    for i := 0 to |targets|
      invariant |entries| == i
      invariant forall j | 0 <= j < i ::
        Ok(entries[j]) == EntryFor(k, targets[j], contract.View(), table.items, request.ownedBy)
    {
      assert targets[i] in targets;
      var owner :- OwnerOf(k, targets[i], contract, table, request.ownedBy);
      entries := entries + [Entry(targets[i].id, targets[i].doc.title, owner)];
    }
    return Ok(Found(entries, |query|));
  }
}
