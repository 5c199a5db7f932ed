/** The three tables of `inventory/models.py` as one in-memory database, and
    the bulk statements the repositories issue against it. A bulk statement
    is atomic: when a row breaks a constraint of the schema (a negative
    `PositiveIntegerField`, a duplicate primary key, a dangling foreign key)
    the statement is rejected and changes nothing. */
module Store {
  import opened Records
  import opened Sequences

  /** A row of the `Article` table, keyed by its `BigIntegerField` primary key. */
  datatype ArticleRow = ArticleRow(name: string, stock: int)

  /** A row of the `Product` table; `id` is the auto-increment primary key. */
  datatype ProductRow = ProductRow(id: int, name: string)

  /** A row of the `ProductRequirement` table. */
  datatype RequirementRow = RequirementRow(productId: int, articleId: int, quantity: int)

  function RowOf(a: ArticleDTO): ArticleRow {
    ArticleRow(a.name, a.stock)
  }

  function Ids(articles: seq<ArticleDTO>): seq<int> {
    seq(|articles|, i requires 0 <= i < |articles| => articles[i].id)
  }

  /** The ids a batch names. */
  function IdSet(articles: seq<ArticleDTO>): (r: set<int>)
    ensures forall a :: a in articles ==> a.id in r
    ensures forall id :: id in r ==> exists i :: 0 <= i < |articles| && articles[i].id == id
  {
    if articles == [] then {} else {articles[0].id} + IdSet(articles[1..])
  }

  /** Index `i` holds the first occurrence of its id. */
  predicate IsFirstOccurrence(articles: seq<ArticleDTO>, i: int)
    requires 0 <= i < |articles|
  {
    forall j :: 0 <= j < i ==> articles[j].id != articles[i].id
  }

  /** The rows a batch writes, one per id. A batch that names an id twice
      writes the first occurrence: `bulk_update` emits `CASE WHEN id = ..`
      branches in batch order and the first matching branch wins. */
  function UploadRows(articles: seq<ArticleDTO>): (r: map<int, ArticleRow>)
    ensures r.Keys == IdSet(articles)
    ensures forall i :: 0 <= i < |articles| && IsFirstOccurrence(articles, i) ==>
              r[articles[i].id] == RowOf(articles[i])
  {
    if articles == [] then map[]
    else
      var rest := articles[1..];
      var r := UploadRows(rest)[articles[0].id := RowOf(articles[0])];
      assert forall i :: 1 <= i < |articles| && IsFirstOccurrence(articles, i) ==>
               IsFirstOccurrence(rest, i - 1) && articles[i] == rest[i - 1];
      r
  }

  /** The entries of `m` whose key is in `s`. */
  function Restrict(m: map<int, ArticleRow>, s: set<int>): (r: map<int, ArticleRow>)
    ensures r.Keys == m.Keys * s
    ensures forall k :: k in r ==> r[k] == m[k]
  {
    map k | k in m && k in s :: m[k]
  }

  /** The table after every article of the batch is written: uploaded ids
      take the uploaded name and stock, every other entry is kept. */
  function Upserted(table: map<int, ArticleRow>, articles: seq<ArticleDTO>): map<int, ArticleRow> {
    table + UploadRows(articles)
  }

  /** What an upsert promises: the keys are the stored ids and the uploaded
      ids; an uploaded id holds its (first) uploaded row; any id not in the
      batch keeps its row. */
  lemma UpsertedSpec(table: map<int, ArticleRow>, articles: seq<ArticleDTO>)
    ensures Upserted(table, articles).Keys == table.Keys + IdSet(articles)
    ensures forall i :: 0 <= i < |articles| && IsFirstOccurrence(articles, i) ==>
              Upserted(table, articles)[articles[i].id] == RowOf(articles[i])
    ensures forall id :: id in table && id !in IdSet(articles) ==> Upserted(table, articles)[id] == table[id]
  {
  }

  /** The articles of the batch whose id is in `s`, in batch order. */
  function ArticlesWithIds(articles: seq<ArticleDTO>, s: set<int>): (r: seq<ArticleDTO>)
    ensures forall a :: a in r <==> a in articles && a.id in s
  {
    if articles == [] then []
    else
      var rest := ArticlesWithIds(articles[1..], s);
      assert forall a :: a in articles <==> a == articles[0] || a in articles[1..];
      if articles[0].id in s then [articles[0]] + rest else rest
  }

  /** The articles of the batch whose id is not in `s`, in batch order. */
  function ArticlesWithoutIds(articles: seq<ArticleDTO>, s: set<int>): (r: seq<ArticleDTO>)
    ensures forall a :: a in r <==> a in articles && a.id !in s
  {
    if articles == [] then []
    else
      var rest := ArticlesWithoutIds(articles[1..], s);
      assert forall a :: a in articles <==> a == articles[0] || a in articles[1..];
      if articles[0].id !in s then [articles[0]] + rest else rest
  }

  /** The two groups split the batch: together they hold every article as
      often as the batch does, and no article is in both. */
  lemma {:induction false} GroupsPartition(articles: seq<ArticleDTO>, s: set<int>)
    ensures multiset(ArticlesWithIds(articles, s)) + multiset(ArticlesWithoutIds(articles, s)) == multiset(articles)
    ensures forall a :: !(a in ArticlesWithIds(articles, s) && a in ArticlesWithoutIds(articles, s))
  {
    if articles != [] {
      GroupsPartition(articles[1..], s);
      assert articles == [articles[0]] + articles[1..];
    }
  }

  /** The entries of `m` whose key is not in `s`. */
  function Exclude(m: map<int, ArticleRow>, s: set<int>): (r: map<int, ArticleRow>)
    ensures r.Keys == m.Keys - s
    ensures forall k :: k in r ==> r[k] == m[k]
  {
    map k | k in m && k !in s :: m[k]
  }

  lemma RestrictUpdate(m: map<int, ArticleRow>, k: int, v: ArticleRow, s: set<int>)
    ensures Restrict(m[k := v], s) == if k in s then Restrict(m, s)[k := v] else Restrict(m, s)
  {
    var l := Restrict(m[k := v], s);
    var r := if k in s then Restrict(m, s)[k := v] else Restrict(m, s);
    assert l.Keys == r.Keys;
    assert forall j :: j in l ==> l[j] == r[j];
  }

  lemma ExcludeUpdate(m: map<int, ArticleRow>, k: int, v: ArticleRow, s: set<int>)
    ensures Exclude(m[k := v], s) == if k !in s then Exclude(m, s)[k := v] else Exclude(m, s)
  {
    var l := Exclude(m[k := v], s);
    var r := if k !in s then Exclude(m, s)[k := v] else Exclude(m, s);
    assert l.Keys == r.Keys;
    assert forall j :: j in l ==> l[j] == r[j];
  }

  /** The groups depend only on which of the batch's ids are in `s`, so two
      sets that agree on the batch's ids give the same groups. */
  lemma {:induction false} GroupsAgree(articles: seq<ArticleDTO>, s1: set<int>, s2: set<int>)
    requires forall i :: 0 <= i < |articles| ==> (articles[i].id in s1 <==> articles[i].id in s2)
    ensures ArticlesWithIds(articles, s1) == ArticlesWithIds(articles, s2)
    ensures ArticlesWithoutIds(articles, s1) == ArticlesWithoutIds(articles, s2)
  {
    if articles != [] {
      GroupsAgree(articles[1..], s1, s2);
    }
  }

  /** A set that holds exactly the batch's ids outside `s2` selects the
      group of ids outside `s2`. */
  lemma {:induction false} GroupsComplement(articles: seq<ArticleDTO>, s1: set<int>, s2: set<int>)
    requires forall i :: 0 <= i < |articles| ==> (articles[i].id in s1 <==> articles[i].id !in s2)
    ensures ArticlesWithIds(articles, s1) == ArticlesWithoutIds(articles, s2)
  {
    if articles != [] {
      GroupsComplement(articles[1..], s1, s2);
    }
  }

  /** Filtering by the stored ids among the batch's ids is filtering by the
      stored ids. */
  lemma GroupsByStoredIds(articles: seq<ArticleDTO>, existing: set<int>, stored: set<int>)
    requires existing == IdSet(articles) * stored
    ensures ArticlesWithIds(articles, existing) == ArticlesWithIds(articles, stored)
    ensures ArticlesWithoutIds(articles, existing) == ArticlesWithoutIds(articles, stored)
  {
    forall i | 0 <= i < |articles| ensures articles[i].id in existing <==> articles[i].id in stored {
      assert articles[i] in articles;
    }
    GroupsAgree(articles, existing, stored);
  }

  /** Writing the rows of the group of stored ids is writing the rows of the
      batch restricted to those ids: filtering by id keeps every occurrence of
      an id and their order, so the same first occurrence wins. */
  lemma {:induction false} UploadRowsWithIds(articles: seq<ArticleDTO>, s: set<int>)
    ensures UploadRows(ArticlesWithIds(articles, s)) == Restrict(UploadRows(articles), s)
  {
    if articles != [] {
      var a0 := articles[0];
      var rest := articles[1..];
      UploadRowsWithIds(rest, s);
      RestrictUpdate(UploadRows(rest), a0.id, RowOf(a0), s);
      if a0.id in s {
        assert ([a0] + ArticlesWithIds(rest, s))[1..] == ArticlesWithIds(rest, s);
      }
    }
  }

  /** The same for the group of ids not stored. */
  lemma {:induction false} UploadRowsWithoutIds(articles: seq<ArticleDTO>, s: set<int>)
    ensures UploadRows(ArticlesWithoutIds(articles, s)) == Exclude(UploadRows(articles), s)
  {
    if articles != [] {
      var a0 := articles[0];
      var rest := articles[1..];
      UploadRowsWithoutIds(rest, s);
      ExcludeUpdate(UploadRows(rest), a0.id, RowOf(a0), s);
      if a0.id !in s {
        assert ([a0] + ArticlesWithoutIds(rest, s))[1..] == ArticlesWithoutIds(rest, s);
      }
    }
  }

  /** How a two-step save of an article batch ends. */
  datatype SaveStatus = Saved | UpdateRejected | CreateRejected

  /** The rows `bulk_update` writes: rows of ids already stored. */
  function Updates(table: map<int, ArticleRow>, rows: seq<ArticleDTO>): map<int, ArticleRow> {
    Restrict(UploadRows(rows), table.Keys)
  }

  /** `bulk_update` is rejected when a value it writes breaks `stock >= 0`. */
  predicate UpdateFails(table: map<int, ArticleRow>, rows: seq<ArticleDTO>) {
    exists id :: id in Updates(table, rows) && Updates(table, rows)[id].stock < 0
  }

  /** `bulk_create` is rejected on a primary key already stored or repeated
      in the batch, or on a negative stock. */
  predicate CreateFails(table: map<int, ArticleRow>, rows: seq<ArticleDTO>) {
    (exists i :: 0 <= i < |rows| && (rows[i].id in table || rows[i].stock < 0))
    || !NoDuplicates(Ids(rows))
  }

  /** Where saving an article batch ends: the stored articles go through
      `bulk_update`, then the others through `bulk_create`. Each statement is
      atomic, the pair is not: a rejected create leaves the update in place. */
  function SaveArticlesSpec(table: map<int, ArticleRow>, articles: seq<ArticleDTO>): (SaveStatus, map<int, ArticleRow>) {
    var existing := ArticlesWithIds(articles, table.Keys);
    var unstored := ArticlesWithoutIds(articles, table.Keys);
    var updated := table + Updates(table, existing);
    if UpdateFails(table, existing) then (UpdateRejected, table)
    else if CreateFails(updated, unstored) then (CreateRejected, updated)
    else (Saved, updated + UploadRows(unstored))
  }

  /** `bulk_update` of rows that all carry a non-negative stock is accepted. */
  lemma UpdateSucceeds(table: map<int, ArticleRow>, rows: seq<ArticleDTO>)
    requires forall i :: 0 <= i < |rows| ==> rows[i].stock >= 0
    ensures !UpdateFails(table, rows)
  {
    UploadRowsNonNegative(rows);
  }

  /** Rows taken from articles with a non-negative stock keep it. */
  lemma UploadRowsNonNegative(rows: seq<ArticleDTO>)
    requires forall i :: 0 <= i < |rows| ==> rows[i].stock >= 0
    ensures forall id :: id in UploadRows(rows) ==> UploadRows(rows)[id].stock >= 0
  {
    forall id | id in UploadRows(rows) ensures UploadRows(rows)[id].stock >= 0 {
      FirstOccurrenceExists(rows, id);
    }
  }

  /** After the update, `bulk_create` of the articles not stored is accepted
      when none has a negative stock and no id repeats among them. */
  lemma CreateSucceeds(table: map<int, ArticleRow>, articles: seq<ArticleDTO>)
    requires forall i :: 0 <= i < |articles| ==> articles[i].stock >= 0
    requires NoDuplicates(Ids(ArticlesWithoutIds(articles, table.Keys)))
    ensures !CreateFails(table + Updates(table, ArticlesWithIds(articles, table.Keys)),
                         ArticlesWithoutIds(articles, table.Keys))
  {
    var s := table.Keys;
    var unstored := ArticlesWithoutIds(articles, s);
    var updated := table + Updates(table, ArticlesWithIds(articles, s));
    assert updated.Keys == s;
    forall i | 0 <= i < |unstored| ensures unstored[i].id !in updated && unstored[i].stock >= 0 {
      assert unstored[i] in articles;
    }
  }

  /** A batch with no negative stock and no id repeated among its new
      articles is saved. */
  lemma SaveArticlesSucceeds(table: map<int, ArticleRow>, articles: seq<ArticleDTO>)
    requires forall i :: 0 <= i < |articles| ==> articles[i].stock >= 0
    requires NoDuplicates(Ids(ArticlesWithoutIds(articles, table.Keys)))
    ensures SaveArticlesSpec(table, articles).0 == Saved
  {
    var existing := ArticlesWithIds(articles, table.Keys);
    forall i | 0 <= i < |existing| ensures existing[i].stock >= 0 {
      assert existing[i] in articles;
    }
    UpdateSucceeds(table, existing);
    CreateSucceeds(table, articles);
  }

  /** Updating the stored group and then inserting the other group writes
      the same table as upserting the whole batch. */
  lemma UpsertByGroups(table: map<int, ArticleRow>, articles: seq<ArticleDTO>)
    ensures table + Updates(table, ArticlesWithIds(articles, table.Keys))
              + UploadRows(ArticlesWithoutIds(articles, table.Keys))
            == Upserted(table, articles)
  {
    var s := table.Keys;
    var rows := UploadRows(articles);
    UploadRowsWithIds(articles, s);
    UploadRowsWithoutIds(articles, s);
    RestrictTwice(rows, s);
    UnionSplit(table, rows);
  }

  lemma RestrictTwice(m: map<int, ArticleRow>, s: set<int>)
    ensures Restrict(Restrict(m, s), s) == Restrict(m, s)
  {
    assert Restrict(Restrict(m, s), s).Keys == Restrict(m, s).Keys;
  }

  lemma UnionSplit(table: map<int, ArticleRow>, m: map<int, ArticleRow>)
    ensures table + Restrict(m, table.Keys) + Exclude(m, table.Keys) == table + m
  {
    var l := table + Restrict(m, table.Keys) + Exclude(m, table.Keys);
    assert l.Keys == (table + m).Keys;
    assert forall k :: k in l ==> l[k] == (table + m)[k];
  }

  /** A saved batch leaves exactly the upserted table. */
  lemma SaveArticlesSavedTable(table: map<int, ArticleRow>, articles: seq<ArticleDTO>)
    ensures SaveArticlesSpec(table, articles).0 == Saved ==>
              SaveArticlesSpec(table, articles).1 == Upserted(table, articles)
  {
    UpsertByGroups(table, articles);
  }

  /** Saving the same batch a second time ends as the first save did, with
      the same status and the same table: an update that was rejected is
      rejected again on the unchanged table; after a rejected create the
      update rewrites its own rows and the create is rejected again; after a
      full save every id of the batch is stored, so the second save only
      rewrites the rows it already wrote and creates nothing. */
  lemma SaveArticlesIdempotent(table: map<int, ArticleRow>, articles: seq<ArticleDTO>)
    ensures SaveArticlesSpec(SaveArticlesSpec(table, articles).1, articles) == SaveArticlesSpec(table, articles)
  {
    var s := table.Keys;
    var existing := ArticlesWithIds(articles, s);
    var unstored := ArticlesWithoutIds(articles, s);
    var updates := Updates(table, existing);
    var updated := table + updates;
    if UpdateFails(table, existing) {
    } else if CreateFails(updated, unstored) {
      UpdateKeepsKeys(table, updates);
      assert Updates(updated, existing) == updates;
      UnionTwice(table, updates);
    } else {
      SavedTwice(table, articles);
    }
  }

  /** Writing rows of stored ids keeps the set of stored ids. */
  lemma UpdateKeepsKeys(table: map<int, ArticleRow>, updates: map<int, ArticleRow>)
    requires updates.Keys <= table.Keys
    ensures (table + updates).Keys == table.Keys
  {
  }

  lemma UnionTwice(table: map<int, ArticleRow>, m: map<int, ArticleRow>)
    ensures table + m + m == table + m
  {
    var l := table + m + m;
    assert l.Keys == (table + m).Keys;
    assert forall k :: k in l ==> l[k] == (table + m)[k];
  }

  /** The second save after a full save: every id of the batch is stored, so
      the whole batch goes through the update, which writes back the same
      rows, and the create receives nothing. */
  lemma SavedTwice(table: map<int, ArticleRow>, articles: seq<ArticleDTO>)
    requires SaveArticlesSpec(table, articles).0 == Saved
    ensures SaveArticlesSpec(SaveArticlesSpec(table, articles).1, articles) == SaveArticlesSpec(table, articles)
  {
    var rows := UploadRows(articles);
    SaveArticlesSavedTable(table, articles);
    SavedRowsNonNegative(table, articles);
    var saved := table + rows;
    forall i | 0 <= i < |articles| ensures articles[i].id in saved {
      assert articles[i] in articles;
    }
    SaveAllStored(saved, articles);
    UnionTwice(table, rows);
  }

  /** A batch whose ids are all stored and whose rows carry no negative
      stock is saved by the update alone. */
  lemma SaveAllStored(table: map<int, ArticleRow>, articles: seq<ArticleDTO>)
    requires forall i :: 0 <= i < |articles| ==> articles[i].id in table
    requires forall id :: id in UploadRows(articles) ==> UploadRows(articles)[id].stock >= 0
    ensures SaveArticlesSpec(table, articles) == (Saved, table + UploadRows(articles))
  {
    var rows := UploadRows(articles);
    AllStoredGroups(articles, table.Keys);
    IdSetWithin(articles, table.Keys);
    RestrictAll(rows, table.Keys);
    assert Updates(table, articles) == rows;
    assert !UpdateFails(table, articles);
    CreateNothing(table + rows);
    NoRowsWritten(table + rows);
  }

  lemma {:induction false} IdSetWithin(articles: seq<ArticleDTO>, s: set<int>)
    requires forall i :: 0 <= i < |articles| ==> articles[i].id in s
    ensures IdSet(articles) <= s
  {
    if articles != [] {
      IdSetWithin(articles[1..], s);
    }
  }

  lemma RestrictAll(m: map<int, ArticleRow>, s: set<int>)
    requires m.Keys <= s
    ensures Restrict(m, s) == m
  {
    assert Restrict(m, s).Keys == m.Keys;
  }

  /** `bulk_create` of no rows is accepted. */
  lemma CreateNothing(table: map<int, ArticleRow>)
    ensures !CreateFails(table, [])
  {
    assert Ids([]) == [];
  }

  lemma NoRowsWritten(table: map<int, ArticleRow>)
    ensures table + UploadRows([]) == table
  {
    assert UploadRows([]) == map[];
  }

  /** When every id of the batch is in `s`, the batch is its own group of
      stored ids and the other group is empty. */
  lemma {:induction false} AllStoredGroups(articles: seq<ArticleDTO>, s: set<int>)
    requires forall i :: 0 <= i < |articles| ==> articles[i].id in s
    ensures ArticlesWithIds(articles, s) == articles
    ensures ArticlesWithoutIds(articles, s) == []
  {
    if articles != [] {
      AllStoredGroups(articles[1..], s);
      assert [articles[0]] + articles[1..] == articles;
    }
  }

  /** A full save wrote no negative stock: the rows of stored ids passed the
      update check and the others the create check. */
  lemma SavedRowsNonNegative(table: map<int, ArticleRow>, articles: seq<ArticleDTO>)
    requires SaveArticlesSpec(table, articles).0 == Saved
    ensures forall id :: id in UploadRows(articles) ==> UploadRows(articles)[id].stock >= 0
  {
    var s := table.Keys;
    var rows := UploadRows(articles);
    var existing := ArticlesWithIds(articles, s);
    var unstored := ArticlesWithoutIds(articles, s);
    assert !UpdateFails(table, existing);
    assert !CreateFails(table + Updates(table, existing), unstored);
    UploadRowsWithIds(articles, s);
    RestrictTwice(rows, s);
    assert Updates(table, existing) == Restrict(rows, s);
    RowsNonNegativeBySide(articles, s);
  }

  /** The rows of a batch carry no negative stock when those of ids in `s`
      carry none and no article of an id outside `s` has a negative stock. */
  lemma RowsNonNegativeBySide(articles: seq<ArticleDTO>, s: set<int>)
    requires forall id :: id in Restrict(UploadRows(articles), s) ==> Restrict(UploadRows(articles), s)[id].stock >= 0
    requires forall i :: 0 <= i < |ArticlesWithoutIds(articles, s)| ==> ArticlesWithoutIds(articles, s)[i].stock >= 0
    ensures forall id :: id in UploadRows(articles) ==> UploadRows(articles)[id].stock >= 0
  {
    var rows := UploadRows(articles);
    UploadRowsWithoutIds(articles, s);
    UploadRowsNonNegative(ArticlesWithoutIds(articles, s));
    forall id | id in rows ensures rows[id].stock >= 0 {
      if id in s {
        assert id in Restrict(rows, s);
      } else {
        assert id in Exclude(rows, s);
      }
    }
  }

  lemma {:induction false} FirstOccurrenceExists(articles: seq<ArticleDTO>, id: int)
    requires id in IdSet(articles)
    ensures exists i :: 0 <= i < |articles| && articles[i].id == id && IsFirstOccurrence(articles, i)
  {
    if articles[0].id != id {
      var rest := articles[1..];
      assert id in IdSet(rest);
      FirstOccurrenceExists(rest, id);
      var i :| 0 <= i < |rest| && rest[i].id == id && IsFirstOccurrence(rest, i);
      forall j | 0 <= j < i + 1 ensures articles[j].id != id {
        if j > 0 {
          assert articles[j] == rest[j - 1];
        }
      }
      assert articles[i + 1] == rest[i];
      assert IsFirstOccurrence(articles, i + 1);
    } else {
      assert IsFirstOccurrence(articles, 0);
    }
  }

  /** Product `pid` is stored. */
  predicate HasProduct(products: seq<ProductRow>, pid: int) {
    exists i :: 0 <= i < |products| && products[i].id == pid
  }

  /** The foreign keys and the `quantity >= 0` check of a requirement row. */
  predicate RequirementAccepted(r: RequirementRow, articles: map<int, ArticleRow>, products: seq<ProductRow>) {
    r.articleId in articles && HasProduct(products, r.productId) && r.quantity >= 0
  }

  /** Product ids increase along the table and stay below the next id. */
  predicate ProductIdsBelow(products: seq<ProductRow>, next: int) {
    (forall i, j :: 0 <= i < j < |products| ==> products[i].id < products[j].id)
    && (forall i :: 0 <= i < |products| ==> products[i].id < next)
  }

  /** The rows `bulk_create` gives to products named `names` when the next
      auto-increment value is `start`: consecutive ids, in order. */
  function NewProductRows(start: int, names: seq<string>): (r: seq<ProductRow>)
    ensures |r| == |names|
    ensures forall i :: 0 <= i < |r| ==> r[i].id == start + i && r[i].name == names[i]
  {
    seq(|names|, i requires 0 <= i < |names| => ProductRow(start + i, names[i]))
  }

  /** Products created from the next auto-increment value onwards get ids
      that no stored product has, increasing along the table, and the next
      value moves past all of them. */
  lemma NewProductRowsFresh(products: seq<ProductRow>, start: int, names: seq<string>)
    requires ProductIdsBelow(products, start)
    ensures ProductIdsBelow(products + NewProductRows(start, names), start + |names|)
    ensures forall i, j :: 0 <= i < |products| && 0 <= j < |names| ==>
              products[i].id != NewProductRows(start, names)[j].id
  {
  }

  /** The schema's constraints on the three tables: every stock is
      non-negative, product ids are unique, and every requirement refers to a
      stored article and a stored product with a non-negative quantity. */
  predicate ValidTables(articles: map<int, ArticleRow>, products: seq<ProductRow>,
                        requirements: seq<RequirementRow>, nextProductId: int) {
    (forall id :: id in articles ==> articles[id].stock >= 0)
    && ProductIdsBelow(products, nextProductId)
    && (forall k :: 0 <= k < |requirements| ==> RequirementAccepted(requirements[k], articles, products))
  }

  /** The database: the three tables and the next auto-increment product id. */
  class Database {
    var articles: map<int, ArticleRow>
    var products: seq<ProductRow>
    var requirements: seq<RequirementRow>
    var nextProductId: int

    /** The schema's constraints hold on the current tables. */
    predicate Valid()
      reads this
    {
      ValidTables(articles, products, requirements, nextProductId)
    }

    constructor()
      ensures Valid()
      ensures articles == map[] && products == [] && requirements == [] && nextProductId == 1
    {
      articles := map[];
      products := [];
      requirements := [];
      nextProductId := 1;
    }

    /** `Article.objects.bulk_update(rows, fields=['name', 'stock'])`: rows of
        stored ids overwrite name and stock, rows of other ids are skipped;
        rejected as a whole when a written stock is negative. */
    method BulkUpdateArticles(rows: seq<ArticleDTO>) returns (ok: bool)
      requires Valid()
      modifies this
      ensures Valid()
      ensures ok == !UpdateFails(old(articles), rows)
      ensures articles == (if ok then old(articles) + Updates(old(articles), rows) else old(articles))
      ensures articles.Keys == old(articles).Keys
      ensures products == old(products) && requirements == old(requirements) && nextProductId == old(nextProductId)
    {
      ok := !UpdateFails(articles, rows);
      if ok {
        articles := articles + Updates(articles, rows);
      }
    }

    /** `Article.objects.bulk_create(rows)`: inserts every row; rejected as a
        whole on a stored or repeated id or a negative stock. */
    method BulkCreateArticles(rows: seq<ArticleDTO>) returns (ok: bool)
      requires Valid()
      modifies this
      ensures Valid()
      ensures ok == !CreateFails(old(articles), rows)
      ensures articles == (if ok then old(articles) + UploadRows(rows) else old(articles))
      ensures products == old(products) && requirements == old(requirements) && nextProductId == old(nextProductId)
    {
      ok := !CreateFails(articles, rows);
      if ok {
        UploadRowsNonNegative(rows);
        articles := articles + UploadRows(rows);
      }
    }

    /** `Product.objects.bulk_create(...)`: one product per name, in order,
        with consecutive new ids; the created rows are returned. */
    method BulkCreateProducts(names: seq<string>) returns (created: seq<ProductRow>)
      requires Valid()
      modifies this
      ensures Valid()
      ensures created == NewProductRows(old(nextProductId), names)
      ensures products == old(products) + created
      ensures nextProductId == old(nextProductId) + |names|
      ensures articles == old(articles) && requirements == old(requirements)
    {
      created := NewProductRows(nextProductId, names);
      forall k | 0 <= k < |requirements|
        ensures RequirementAccepted(requirements[k], articles, products + created)
      {
        assert RequirementAccepted(requirements[k], articles, products);
        assert HasProduct(products, requirements[k].productId);
        var i :| 0 <= i < |products| && products[i].id == requirements[k].productId;
        assert (products + created)[i] == products[i];
      }
      products := products + created;
      nextProductId := nextProductId + |names|;
    }

    /** `ProductRequirement.objects.bulk_create(rows)`: inserts every row;
        rejected as a whole on a dangling article or product or a negative
        quantity. */
    method BulkCreateRequirements(rows: seq<RequirementRow>) returns (ok: bool)
      requires Valid()
      modifies this
      ensures Valid()
      ensures ok <==> forall k :: 0 <= k < |rows| ==> RequirementAccepted(rows[k], articles, products)
      ensures requirements == (if ok then old(requirements) + rows else old(requirements))
      ensures articles == old(articles) && products == old(products) && nextProductId == old(nextProductId)
    {
      ok := forall k :: 0 <= k < |rows| ==> RequirementAccepted(rows[k], articles, products);
      if ok {
        requirements := requirements + rows;
      }
    }

    /** Puts back a state saved before a transaction, as its rollback does. */
    method RollBack(savedArticles: map<int, ArticleRow>, savedProducts: seq<ProductRow>,
                    savedRequirements: seq<RequirementRow>, savedNext: int)
      requires ValidTables(savedArticles, savedProducts, savedRequirements, savedNext)
      modifies this
      ensures Valid()
      ensures articles == savedArticles && products == savedProducts
      ensures requirements == savedRequirements && nextProductId == savedNext
    {
      articles := savedArticles;
      products := savedProducts;
      requirements := savedRequirements;
      nextProductId := savedNext;
    }
  }
}
