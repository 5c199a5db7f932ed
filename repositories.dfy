/** The repositories of `inventory/repositories.py`: the partitions of
    candidate keys by whether the store holds them, the article upsert, and
    the creation of products with their requirements. */
module Repositories {
  import opened Records
  import opened Sequences
  import opened Store

  // ArticleRepository

  /** The result of `partition_ids_by_existence`. The stored ids come back in
      the order of the query, which the schema leaves open, so they are a set;
      the missing ids keep the order of the input. */
  datatype IdPartition = IdPartition(existing: set<int>, missing: seq<int>)

  /** The candidates the store does not hold, in input order, repeats kept. */
  function MissingIds(candidates: seq<int>, stored: set<int>): (r: seq<int>)
    ensures forall id :: id in r <==> id in candidates && id !in stored
    ensures |r| <= |candidates|
  {
    if candidates == [] then []
    else
      assert forall id :: id in candidates <==> id == candidates[0] || id in candidates[1..];
      (if candidates[0] in stored then [] else [candidates[0]]) + MissingIds(candidates[1..], stored)
  }

  /** The filter keeps the input order: it distributes over concatenation. */
  lemma {:induction false} MissingIdsAppend(a: seq<int>, b: seq<int>, stored: set<int>)
    ensures MissingIds(a + b, stored) == MissingIds(a, stored) + MissingIds(b, stored)
  {
    if a != [] {
      assert (a + b)[1..] == a[1..] + b;
      MissingIdsAppend(a[1..], b, stored);
    } else {
      assert a + b == b;
    }
  }

  /** Distinct candidates give distinct missing ids. */
  lemma {:induction false} MissingIdsNoDuplicates(candidates: seq<int>, stored: set<int>)
    requires NoDuplicates(candidates)
    ensures NoDuplicates(MissingIds(candidates, stored))
  {
    if candidates != [] {
      var rest := candidates[1..];
      assert NoDuplicates(rest) by {
        forall i, j | 0 <= i < j < |rest| ensures rest[i] != rest[j] {
          assert rest[i] == candidates[i + 1] && rest[j] == candidates[j + 1];
        }
      }
      MissingIdsNoDuplicates(rest, stored);
      assert candidates[0] !in rest;
    }
  }

  /** `partition_ids_by_existence`: every candidate is on exactly one side;
      the stored side is the candidates the store holds, the missing side the
      others. */
  function PartitionIds(candidates: seq<int>, stored: set<int>): (r: IdPartition)
    ensures forall id :: id in r.existing <==> id in candidates && id in stored
    ensures forall id :: id in r.missing <==> id in candidates && id !in stored
    ensures forall id :: id in candidates ==> (id in r.existing <==> id !in r.missing)
  {
    IdPartition((set id | id in candidates && id in stored), MissingIds(candidates, stored))
  }

  /** `ArticleRepository.save_articles` (and `ArticleBusiness.save_articles`,
      which only delegates to it): the articles whose id is on the stored side
      go through `bulk_update`, those on the missing side through
      `bulk_create`. */
  method SaveArticles(db: Database, articles: seq<ArticleDTO>) returns (status: SaveStatus)
    requires db.Valid()
    modifies db
    ensures db.Valid()
    ensures (status, db.articles) == SaveArticlesSpec(old(db.articles), articles)
    ensures db.products == old(db.products) && db.requirements == old(db.requirements)
    ensures db.nextProductId == old(db.nextProductId)
  {
    var stored := db.articles.Keys;
    var articleIds := Ids(articles);
    var partition := PartitionIds(articleIds, stored);
    var missingIds := set id | id in partition.missing;
    var existingArticles := ArticlesWithIds(articles, partition.existing);
    var notExistingArticles := ArticlesWithIds(articles, missingIds);
    forall i | 0 <= i < |articles|
      ensures articles[i].id in partition.existing <==> articles[i].id in stored
      ensures articles[i].id in missingIds <==> articles[i].id !in stored
    {
      assert articleIds[i] == articles[i].id;
    }
    GroupsAgree(articles, partition.existing, stored);
    GroupsComplement(articles, missingIds, stored);
    var updated := db.BulkUpdateArticles(existingArticles);
    if !updated {
      return UpdateRejected;
    }
    var created := db.BulkCreateArticles(notExistingArticles);
    if !created {
      return CreateRejected;
    }
    return Saved;
  }

  // ProductRepository

  /** A stored product carries the name `name`. */
  predicate NameStored(stored: seq<ProductRow>, name: string) {
    exists i :: 0 <= i < |stored| && stored[i].name == name
  }

  /** The result of `partition_names_by_existence`: the stored names among
      the candidates and the candidates not stored. */
  datatype NamePartition = NamePartition(existing: seq<string>, missing: seq<string>)

  /** `Product.objects.filter(name__in=candidates).values('name')`: the name
      of every stored product whose name is a candidate, in table order. */
  function StoredNamesAmong(stored: seq<ProductRow>, candidates: seq<string>): (r: seq<string>)
    ensures forall name :: name in r <==> name in candidates && NameStored(stored, name)
    ensures |r| <= |stored|
  {
    if stored == [] then []
    else
      var rest := StoredNamesAmong(stored[1..], candidates);
      assert forall name :: NameStored(stored, name) <==> stored[0].name == name || NameStored(stored[1..], name) by {
        forall name | NameStored(stored, name) && stored[0].name != name ensures NameStored(stored[1..], name) {
          var i :| 0 <= i < |stored| && stored[i].name == name;
          assert stored[1..][i - 1] == stored[i];
        }
        forall name | NameStored(stored[1..], name) ensures NameStored(stored, name) {
          var i :| 0 <= i < |stored[1..]| && stored[1..][i].name == name;
          assert stored[i + 1] == stored[1..][i];
        }
      }
      if stored[0].name in candidates then [stored[0].name] + rest else rest
  }

  /** The candidates that are not in `existing`, in input order. */
  function NamesNotIn(candidates: seq<string>, existing: seq<string>): (r: seq<string>)
    ensures forall name :: name in r <==> name in candidates && name !in existing
    ensures |r| <= |candidates|
  {
    if candidates == [] then []
    else
      assert forall name :: name in candidates <==> name == candidates[0] || name in candidates[1..];
      (if candidates[0] in existing then [] else [candidates[0]]) + NamesNotIn(candidates[1..], existing)
  }

  /** Filtering distributes over concatenation, so the missing names keep
      their input order and every repetition of a candidate. */
  lemma {:induction false} NamesNotInAppend(a: seq<string>, b: seq<string>, existing: seq<string>)
    ensures NamesNotIn(a + b, existing) == NamesNotIn(a, existing) + NamesNotIn(b, existing)
  {
    if a != [] {
      assert (a + b)[1..] == a[1..] + b;
      NamesNotInAppend(a[1..], b, existing);
    } else {
      assert a + b == b;
    }
  }

  /** `partition_names_by_existence` as it is evidently meant to work: every
      candidate is on exactly one side; the stored side lists the stored
      names among the candidates, the missing side the others. */
  function PartitionNames(candidates: seq<string>, stored: seq<ProductRow>): (r: NamePartition)
    ensures forall name :: name in r.existing <==> name in candidates && NameStored(stored, name)
    ensures forall name :: name in r.missing <==> name in candidates && !NameStored(stored, name)
  {
    var existing := StoredNamesAmong(stored, candidates);
    NamePartition(existing, NamesNotIn(candidates, existing))
  }

  /** The requirement lists of the products to create, in order. */
  function RequirementLists(products: seq<CreateProductDTO>): (r: seq<seq<CreateProductRequirementDTO>>)
    ensures |r| == |products|
    ensures forall i :: 0 <= i < |products| ==> r[i] == products[i].requirements
  {
    seq(|products|, i requires 0 <= i < |products| => products[i].requirements)
  }

  /** The names of the products to create, in order. */
  function ProductNames(products: seq<CreateProductDTO>): (r: seq<string>)
    ensures |r| == |products|
    ensures forall i :: 0 <= i < |products| ==> r[i] == products[i].name
  {
    seq(|products|, i requires 0 <= i < |products| => products[i].name)
  }

  /** `_map_requirement`: one requirement row per requirement, for product
      `productId`. */
  function MapRequirements(requirements: seq<CreateProductRequirementDTO>, productId: int): (r: seq<RequirementRow>)
    ensures |r| == |requirements|
    ensures forall k :: 0 <= k < |r| ==>
              r[k] == RequirementRow(productId, requirements[k].articleId, requirements[k].quantity)
  {
    seq(|requirements|, k requires 0 <= k < |requirements| =>
      RequirementRow(productId, requirements[k].articleId, requirements[k].quantity))
  }

  /** The rows of product `i` go with the product created `i`-th, whose id is
      `start + i`. */
  function RequirementGroups(start: int, products: seq<CreateProductDTO>): (r: seq<seq<RequirementRow>>)
    ensures |r| == |products|
    ensures forall i :: 0 <= i < |products| ==> r[i] == MapRequirements(products[i].requirements, start + i)
  {
    seq(|products|, i requires 0 <= i < |products| => MapRequirements(products[i].requirements, start + i))
  }

  /** Every requirement row `create_products` inserts, product by product. */
  function RequirementRowsFor(start: int, products: seq<CreateProductDTO>): seq<RequirementRow> {
    FlatList(RequirementGroups(start, products))
  }

  /** Every requirement refers to a stored article with a non-negative
      quantity. */
  predicate RequirementsAccepted(products: seq<CreateProductDTO>, articles: map<int, ArticleRow>) {
    forall i, k :: 0 <= i < |products| && 0 <= k < |products[i].requirements| ==>
      products[i].requirements[k].articleId in articles && products[i].requirements[k].quantity >= 0
  }

  /** `ProductRepository.create_products`: the products are inserted with new
      consecutive ids, then every requirement row, each tied to the product
      created for its DTO. The product insert stands even when the
      requirement insert is rejected. */
  method CreateProducts(db: Database, products: seq<CreateProductDTO>) returns (ok: bool)
    requires db.Valid()
    modifies db
    ensures db.Valid()
    ensures db.products == old(db.products) + NewProductRows(old(db.nextProductId), ProductNames(products))
    ensures db.nextProductId == old(db.nextProductId) + |products|
    ensures db.articles == old(db.articles)
    ensures ok <==> RequirementsAccepted(products, old(db.articles))
    ensures db.requirements == if ok then old(db.requirements) + RequirementRowsFor(old(db.nextProductId), products)
                               else old(db.requirements)
  {
    var start := db.nextProductId;
    var createdProducts := db.BulkCreateProducts(ProductNames(products));
    var groups := seq(|products|, i requires 0 <= i < |products| =>
                    MapRequirements(products[i].requirements, createdProducts[i].id));
    assert groups == RequirementGroups(start, products);
    var rows := FlatList(groups);
    assert rows == RequirementRowsFor(start, products);
    RequirementRowsAccepted(start, products, db.articles, old(db.products), db.products);
    ok := db.BulkCreateRequirements(rows);
  }

  /** The rows of a creation are all accepted exactly when every requirement
      refers to a stored article with a non-negative quantity, once the
      products have been stored under the ids `start ..`. */
  lemma RequirementRowsAccepted(start: int, products: seq<CreateProductDTO>,
                                articles: map<int, ArticleRow>, before: seq<ProductRow>, stored: seq<ProductRow>)
    requires stored == before + NewProductRows(start, ProductNames(products))
    ensures (forall k :: 0 <= k < |RequirementRowsFor(start, products)| ==>
               RequirementAccepted(RequirementRowsFor(start, products)[k], articles, stored))
            <==> RequirementsAccepted(products, articles)
  {
    if forall k :: 0 <= k < |RequirementRowsFor(start, products)| ==>
         RequirementAccepted(RequirementRowsFor(start, products)[k], articles, stored)
    {
      AcceptedRowsCoverRequirements(start, products, articles, stored);
    }
    if RequirementsAccepted(products, articles) {
      RequirementsAcceptRows(start, products, articles, before, stored);
    }
  }

  /** Each requirement has a row, so accepted rows mean accepted requirements. */
  lemma AcceptedRowsCoverRequirements(start: int, products: seq<CreateProductDTO>,
                                      articles: map<int, ArticleRow>, stored: seq<ProductRow>)
    requires forall k :: 0 <= k < |RequirementRowsFor(start, products)| ==>
               RequirementAccepted(RequirementRowsFor(start, products)[k], articles, stored)
    ensures RequirementsAccepted(products, articles)
  {
    var groups := RequirementGroups(start, products);
    var rows := FlatList(groups);
    assert rows == RequirementRowsFor(start, products);
    forall i, k | 0 <= i < |products| && 0 <= k < |products[i].requirements|
      ensures products[i].requirements[k].articleId in articles && products[i].requirements[k].quantity >= 0
    {
      var row := groups[i][k];
      assert row == RequirementRow(start + i, products[i].requirements[k].articleId,
                                   products[i].requirements[k].quantity);
      FlatListHas(groups, i, row);
      var n :| 0 <= n < |rows| && rows[n] == row;
      assert RequirementAccepted(rows[n], articles, stored);
    }
  }

  /** Every row comes from some requirement of a product stored under its id,
      so accepted requirements mean accepted rows. */
  lemma RequirementsAcceptRows(start: int, products: seq<CreateProductDTO>,
                               articles: map<int, ArticleRow>, before: seq<ProductRow>, stored: seq<ProductRow>)
    requires stored == before + NewProductRows(start, ProductNames(products))
    requires RequirementsAccepted(products, articles)
    ensures forall k :: 0 <= k < |RequirementRowsFor(start, products)| ==>
              RequirementAccepted(RequirementRowsFor(start, products)[k], articles, stored)
  {
    var groups := RequirementGroups(start, products);
    var rows := FlatList(groups);
    assert rows == RequirementRowsFor(start, products);
    FlatListFrom(groups);
    forall k | 0 <= k < |rows| ensures RequirementAccepted(rows[k], articles, stored) {
      assert rows[k] in rows;
      var i :| 0 <= i < |groups| && rows[k] in groups[i];
      var j :| 0 <= j < |groups[i]| && groups[i][j] == rows[k];
      CreatedProductStored(start, products, before, stored, i);
      assert rows[k] == RequirementRow(start + i, products[i].requirements[j].articleId,
                                       products[i].requirements[j].quantity);
    }
  }

  /** The product created `i`-th is stored under id `start + i`. */
  lemma CreatedProductStored(start: int, products: seq<CreateProductDTO>,
                             before: seq<ProductRow>, stored: seq<ProductRow>, i: nat)
    requires stored == before + NewProductRows(start, ProductNames(products))
    requires i < |products|
    ensures HasProduct(stored, start + i)
  {
    assert stored[|before| + i] == NewProductRows(start, ProductNames(products))[i];
  }

  /** The number of requirement rows is the sum of the products' requirement
      counts. */
  lemma RequirementRowsCount(start: int, products: seq<CreateProductDTO>)
    ensures |RequirementRowsFor(start, products)|
            == SumLengths(RequirementLists(products))
  {
    var groups := RequirementGroups(start, products);
    FlatListLength(groups);
    SameSumLengths(groups, RequirementLists(products));
  }

  lemma {:induction false} SameSumLengths<A, B>(a: seq<seq<A>>, b: seq<seq<B>>)
    requires |a| == |b|
    requires forall i :: 0 <= i < |a| ==> |a[i]| == |b[i]|
    ensures SumLengths(a) == SumLengths(b)
  {
    if a != [] {
      SameSumLengths(a[1..], b[1..]);
    }
  }

  /** The requirements stored for product `productId`, as DTOs, in row order. */
  function RequirementsOf(rows: seq<RequirementRow>, productId: int): seq<CreateProductRequirementDTO> {
    if rows == [] then []
    else
      var rest := RequirementsOf(rows[1..], productId);
      if rows[0].productId == productId
      then [CreateProductRequirementDTO(rows[0].quantity, rows[0].articleId)] + rest
      else rest
  }

  lemma {:induction false} RequirementsOfAppend(a: seq<RequirementRow>, b: seq<RequirementRow>, productId: int)
    ensures RequirementsOf(a + b, productId) == RequirementsOf(a, productId) + RequirementsOf(b, productId)
  {
    if a != [] {
      assert (a + b)[1..] == a[1..] + b;
      RequirementsOfAppend(a[1..], b, productId);
    } else {
      assert a + b == b;
    }
  }

  lemma {:induction false} RequirementsOfMapped(requirements: seq<CreateProductRequirementDTO>, owner: int, productId: int)
    ensures RequirementsOf(MapRequirements(requirements, owner), productId)
            == if owner == productId then requirements else []
  {
    if requirements != [] {
      RequirementsOfMapped(requirements[1..], owner, productId);
      assert MapRequirements(requirements, owner)[1..] == MapRequirements(requirements[1..], owner);
      assert [requirements[0]] + requirements[1..] == requirements;
    }
  }

  /** The rows of the first product come first, then those of the rest. */
  lemma RequirementRowsForFirst(start: int, products: seq<CreateProductDTO>)
    requires products != []
    ensures RequirementRowsFor(start, products)
            == MapRequirements(products[0].requirements, start) + RequirementRowsFor(start + 1, products[1..])
  {
    var groups := RequirementGroups(start, products);
    assert groups[1..] == RequirementGroups(start + 1, products[1..]);
  }

  /** Product `start + i` receives exactly the requirements of DTO `i`, in
      order, and an id outside the created range receives none. */
  lemma {:induction false} RequirementsOfCreated(start: int, products: seq<CreateProductDTO>, productId: int)
    ensures RequirementsOf(RequirementRowsFor(start, products), productId)
            == if start <= productId < start + |products| then products[productId - start].requirements else []
    decreases products
  {
    if products != [] {
      RequirementRowsForFirst(start, products);
      RequirementsOfAppend(MapRequirements(products[0].requirements, start),
                           RequirementRowsFor(start + 1, products[1..]), productId);
      RequirementsOfMapped(products[0].requirements, start, productId);
      RequirementsOfCreated(start + 1, products[1..], productId);
      if start < productId < start + |products| {
        assert products[1..][productId - (start + 1)] == products[productId - start];
      }
    }
  }
}
