/** `ProductBusiness` of `inventory/business_logic/business_logic.py`: the
    availability of products from the stock of their articles, the two checks
    that guard product creation with their exception messages, and
    `save_products`. */
module ProductBusiness {
  import opened PyText
  import opened Records
  import opened Sequences
  import opened Store
  import opened Repositories

  datatype Option<T> = None | Some(value: T)

  // Availability

  /** Python's `a // b` for `b != 0`: the quotient rounded toward minus
      infinity, whatever the signs. */
  function FloorDiv(a: int, b: int): (r: int)
    requires b != 0
    ensures b > 0 ==> b * r <= a < b * r + b
    ensures b < 0 ==> b * r + b < a <= b * r
  {
    if b > 0 then a / b else (-a) / (-b)
  }

  /** `req.article.stock // req.quantity`. */
  function Quotient(requirement: ProductRequirementDBO): int
    requires requirement.quantity != 0
  {
    FloorDiv(requirement.article.stock, requirement.quantity)
  }

  predicate NonZeroQuantities(requirements: seq<ProductRequirementDBO>) {
    forall k :: 0 <= k < |requirements| ==> requirements[k].quantity != 0
  }

  /** The smallest quotient of a non-empty list. */
  function MinQuotient(requirements: seq<ProductRequirementDBO>): (r: int)
    requires |requirements| > 0 && NonZeroQuantities(requirements)
    ensures forall k :: 0 <= k < |requirements| ==> r <= Quotient(requirements[k])
    ensures exists k :: 0 <= k < |requirements| && r == Quotient(requirements[k])
  {
    if |requirements| == 1 then Quotient(requirements[0])
    else
      var first := Quotient(requirements[0]);
      var rest := MinQuotient(requirements[1..]);
      assert forall k :: 1 <= k < |requirements| ==> requirements[1..][k - 1] == requirements[k];
      if first <= rest then first else rest
  }

  /** `_get_product_availability`: the smallest `stock // quantity` over the
      requirements. `None` where the source raises: `min` of an empty list
      (ValueError) and a zero quantity (ZeroDivisionError). */
  function Availability(requirements: seq<ProductRequirementDBO>): (r: Option<int>)
    ensures r.Some? <==> |requirements| > 0 && NonZeroQuantities(requirements)
    ensures r.Some? ==> forall k :: 0 <= k < |requirements| ==> r.value <= Quotient(requirements[k])
    ensures r.Some? ==> exists k :: 0 <= k < |requirements| && r.value == Quotient(requirements[k])
  {
    if |requirements| > 0 && NonZeroQuantities(requirements) then Some(MinQuotient(requirements)) else None
  }

  /** With positive quantities and non-negative stock, the availability is the
      number of complete products the stock can build: not negative, within
      every article's stock, and one more would exceed some article's stock. */
  lemma AvailabilityBuildable(requirements: seq<ProductRequirementDBO>)
    requires |requirements| > 0
    requires forall k :: 0 <= k < |requirements| ==>
               requirements[k].quantity > 0 && requirements[k].article.stock >= 0
    ensures Availability(requirements).Some?
    ensures Availability(requirements).value >= 0
    ensures forall k :: 0 <= k < |requirements| ==>
              Availability(requirements).value * requirements[k].quantity <= requirements[k].article.stock
    ensures exists k :: 0 <= k < |requirements| &&
              (Availability(requirements).value + 1) * requirements[k].quantity > requirements[k].article.stock
  {
    var a := Availability(requirements).value;
    forall k | 0 <= k < |requirements|
      ensures a * requirements[k].quantity <= requirements[k].article.stock
      ensures Quotient(requirements[k]) >= 0
    {
      QuotientBounds(requirements[k], a);
    }
    var m :| 0 <= m < |requirements| && a == Quotient(requirements[m]);
    QuotientBounds(requirements[m], a);
  }

  /** One requirement's side of `AvailabilityBuildable`, for any `a` below its
      quotient. */
  lemma QuotientBounds(requirement: ProductRequirementDBO, a: int)
    requires requirement.quantity > 0 && requirement.article.stock >= 0
    requires a <= Quotient(requirement)
    ensures Quotient(requirement) >= 0
    ensures a * requirement.quantity <= requirement.article.stock
    ensures a == Quotient(requirement) ==> (a + 1) * requirement.quantity > requirement.article.stock
  {
    var q, s, d := requirement.quantity, requirement.article.stock, Quotient(requirement);
    assert q * d <= s < q * d + q;
    assert q * (d + 1) > 0;
    assert a * q <= d * q;
  }

  /** Stock 5 for two per product and stock 9 for three per product make two
      products. */
  lemma AvailabilityExample()
    ensures Availability([ProductRequirementDBO(2, ArticleDTO(1, "leg", 5)),
                          ProductRequirementDBO(3, ArticleDTO(2, "screw", 9))]) == Some(2)
  {
    var requirements := [ProductRequirementDBO(2, ArticleDTO(1, "leg", 5)),
                         ProductRequirementDBO(3, ArticleDTO(2, "screw", 9))];
    assert Quotient(requirements[0]) == 2;
    assert Quotient(requirements[1]) == 3;
  }

  /** The listing of `get_products_availability`, over the fetched products:
      one entry per product, in order, with id and name copied; `None` when
      the availability of some product raises. */
  function GetProductsAvailability(products: seq<ProductDBO>): (r: Option<seq<ProductAvailability>>)
    ensures r.Some? <==> forall i :: 0 <= i < |products| ==> Availability(products[i].requirements).Some?
    ensures r.Some? ==> |r.value| == |products|
    ensures r.Some? ==> forall i :: 0 <= i < |products| ==>
              r.value[i] == ProductAvailability(products[i].id, products[i].name,
                                                Availability(products[i].requirements).value)
  {
    if products == [] then Some([])
    else
      var first := Availability(products[0].requirements);
      var rest := GetProductsAvailability(products[1..]);
      assert forall i :: 1 <= i < |products| ==> products[1..][i - 1] == products[i];
      if first.None? || rest.None? then None
      else Some([ProductAvailability(products[0].id, products[0].name, first.value)] + rest.value)
  }

  // The checks before creation

  /** The outcome of `save_products`: it passes, or one of the two checks
      raises, or the store rejects the insert (the transaction is rolled
      back), or the as-written name check raises a `TypeError`. */
  datatype Check = Passed | ProductAlreadyExist(names: seq<string>) | ArticleNotExist(ids: seq<int>)
                 | Rejected | Crashed

  /** `str(ProductAlreadyExistException(*names))`. */
  function ProductAlreadyExistMessage(names: seq<string>): string {
    "Products already exist with names: " + Join(names, ",")
  }

  /** The text after the fixed prefix, split at commas, gives back the names
      when none contains a comma. */
  lemma ProductAlreadyExistMessageNames(names: seq<string>)
    requires |names| > 0
    requires forall k :: 0 <= k < |names| ==> ',' !in names[k]
    ensures var prefix := "Products already exist with names: ";
            var m := ProductAlreadyExistMessage(names);
            |prefix| <= |m| && m[..|prefix|] == prefix && Split(m[|prefix|..], ',') == names
  {
    var prefix := "Products already exist with names: ";
    var m := ProductAlreadyExistMessage(names);
    assert m[|prefix|..] == Join(names, [',']);
    SplitJoin(names, ',');
  }

  /** The decimal texts of the ids. */
  function IdTexts(ids: seq<int>): (r: seq<string>)
    ensures |r| == |ids|
    ensures forall k :: 0 <= k < |ids| ==> r[k] == IntToString(ids[k])
  {
    seq(|ids|, k requires 0 <= k < |ids| => IntToString(ids[k]))
  }

  /** `str(ids)` of a list of ints: `[1, 2, 3]`. */
  function IdListText(ids: seq<int>): string {
    "[" + Join(IdTexts(ids), ", ") + "]"
  }

  /** `str(ArticleNotExistException(ids))`: the validator passes the list as a
      single argument, so the joined text is the list's own `str`. */
  function ArticleNotExistMessage(ids: seq<int>): string {
    ArticleNotExistPrefix + IdListText(ids)
  }

  const ArticleNotExistPrefix := "Articles dont exist with ids: "

  lemma IntTextHasNoComma(i: int)
    ensures ',' !in IntToString(i)
  {
    var digits := NatToString(if i < 0 then -i else i);
    assert forall k :: 0 <= k < |digits| ==> IsDigit(digits[k]);
    if i < 0 {
      assert IntToString(i) == "-" + digits;
    }
  }

  /** The bracketed text of the message, split at commas: the first id's
      decimal text, then every other id's text after one space. */
  lemma ArticleNotExistMessageIds(ids: seq<int>)
    requires |ids| > 0
    ensures var prefix := ArticleNotExistPrefix + "[";
            var m := ArticleNotExistMessage(ids);
            |prefix| < |m| && m[..|prefix|] == prefix && m[|m| - 1] == ']'
            && Split(m[|prefix|..|m| - 1], ',') == [IntToString(ids[0])] + Padded(IdTexts(ids)[1..], " ")
  {
    var prefix := ArticleNotExistPrefix + "[";
    var m := ArticleNotExistMessage(ids);
    var texts := IdTexts(ids);
    assert [','] + " " == ", ";
    forall k | 0 <= k < |texts| ensures ',' !in texts[k] {
      IntTextHasNoComma(ids[k]);
    }
    assert m == prefix + Join(texts, [','] + " ") + "]";
    assert m[|prefix|..|m| - 1] == Join(texts, [','] + " ");
    SplitJoinPadded(texts, ',', " ");
  }

  lemma ArticleNotExistMessageExample()
    ensures ArticleNotExistMessage([1, 2]) == "Articles dont exist with ids: [1, 2]"
  {
    assert IntToString(1) == "1" && IntToString(2) == "2";
    assert IdTexts([1, 2]) == ["1", "2"];
    assert Join(["1", "2"], ", ") == "1, 2";
  }

  /** `validate_product_names_not_exist`: raises with the stored names among
      the incoming ones, exactly when there is one. */
  function ValidateProductNamesNotExist(products: seq<CreateProductDTO>, stored: seq<ProductRow>): (r: Check)
    ensures r.Passed? || r.ProductAlreadyExist?
    ensures r.ProductAlreadyExist? <==> exists i :: 0 <= i < |products| && NameStored(stored, products[i].name)
    ensures r.ProductAlreadyExist? ==>
              forall name :: name in r.names <==> name in ProductNames(products) && NameStored(stored, name)
  {
    var names := ProductNames(products);
    var partition := PartitionNames(names, stored);
    if |partition.existing| > 0 then
      var name := partition.existing[0];
      assert name in names;
      ProductAlreadyExist(partition.existing)
    else
      assert forall i :: 0 <= i < |products| ==> names[i] == products[i].name;
      Passed
  }

  /** `partition_names_by_existence` as written: line 27 calls `filter`
      with one argument, which raises a `TypeError` whatever the input. */
  function PartitionNamesAsWritten(candidates: seq<string>, stored: seq<ProductRow>): Option<NamePartition> {
    None
  }

  /** `validate_product_names_not_exist` over the as-written partition. */
  function ValidateProductNamesAsWritten(products: seq<CreateProductDTO>, stored: seq<ProductRow>): Check {
    match PartitionNamesAsWritten(ProductNames(products), stored)
    case None => Crashed
    case Some(partition) =>
      if |partition.existing| > 0 then ProductAlreadyExist(partition.existing) else Passed
  }

  /** A new product on an empty store: the intended check passes, the
      as-written one raises, so `save_products` never gets to create it. */
  lemma NameCheckAsWrittenRaises()
    ensures var products := [CreateProductDTO("Dining Chair", [])];
            ValidateProductNamesNotExist(products, []) == Passed
            && ValidateProductNamesAsWritten(products, []) == Crashed
  {
    var products := [CreateProductDTO("Dining Chair", [])];
    assert !NameStored([], products[0].name);
  }

  /** Some requirement of some product consumes article `id`. */
  predicate References(products: seq<CreateProductDTO>, id: int) {
    exists i, k :: 0 <= i < |products| && 0 <= k < |products[i].requirements|
                   && products[i].requirements[k].articleId == id
  }

  /** The article ids of `flat_list` of the requirement lists, in order. */
  function RequiredArticleIds(products: seq<CreateProductDTO>): seq<int> {
    var requirements := FlatList(RequirementLists(products));
    seq(|requirements|, k requires 0 <= k < |requirements| => requirements[k].articleId)
  }

  lemma RequiredArticleIdsMembers(products: seq<CreateProductDTO>)
    ensures forall id :: id in RequiredArticleIds(products) <==> References(products, id)
  {
    var lists := RequirementLists(products);
    var requirements := FlatList(lists);
    var ids := RequiredArticleIds(products);
    FlatListFrom(lists);
    forall id | id in ids ensures References(products, id) {
      var n :| 0 <= n < |ids| && ids[n] == id;
      assert requirements[n] in requirements;
      var i :| 0 <= i < |lists| && requirements[n] in lists[i];
      var k :| 0 <= k < |lists[i]| && lists[i][k] == requirements[n];
    }
    forall id | References(products, id) ensures id in ids {
      var i, k :| 0 <= i < |products| && 0 <= k < |products[i].requirements|
                  && products[i].requirements[k].articleId == id;
      FlatListHas(lists, i, products[i].requirements[k]);
      var n :| 0 <= n < |requirements| && requirements[n] == products[i].requirements[k];
      assert ids[n] == id;
    }
  }

  /** `validate_product_requirement_articles_exist`: raises with the distinct
      referenced ids the store lacks, exactly when there is one. The source
      builds a Python `set`, whose order is not fixed; the model keeps each
      id's first occurrence. */
  function ValidateRequirementArticlesExist(products: seq<CreateProductDTO>, stored: set<int>): (r: Check)
    ensures r.Passed? || r.ArticleNotExist?
    ensures r.ArticleNotExist? <==>
              exists i, k :: 0 <= i < |products| && 0 <= k < |products[i].requirements|
                             && products[i].requirements[k].articleId !in stored
    ensures r.ArticleNotExist? ==> NoDuplicates(r.ids)
    ensures r.ArticleNotExist? ==> forall id :: id in r.ids <==> References(products, id) && id !in stored
  {
    var articleIds := Dedup(RequiredArticleIds(products));
    var partition := PartitionIds(articleIds, stored);
    RequiredArticleIdsMembers(products);
    MissingIdsNoDuplicates(articleIds, stored);
    if |partition.missing| > 0 then
      assert partition.missing[0] in partition.missing;
      ArticleNotExist(partition.missing)
    else
      assert forall i, k :: 0 <= i < |products| && 0 <= k < |products[i].requirements| ==>
               References(products, products[i].requirements[k].articleId);
      Passed
  }

  // save_products

  /** The two checks in the order `save_products` runs them: the name check
      first. */
  function SaveProductsCheck(products: seq<CreateProductDTO>, articles: map<int, ArticleRow>,
                             stored: seq<ProductRow>): Check {
    var names := ValidateProductNamesNotExist(products, stored);
    if !names.Passed? then names else ValidateRequirementArticlesExist(products, articles.Keys)
  }

  /** The checks pass exactly when no incoming name is stored and every
      referenced article is. */
  lemma SaveProductsCheckPasses(products: seq<CreateProductDTO>, articles: map<int, ArticleRow>,
                                stored: seq<ProductRow>)
    ensures SaveProductsCheck(products, articles, stored).Passed? <==>
              (forall i :: 0 <= i < |products| ==> !NameStored(stored, products[i].name))
              && (forall i, k :: 0 <= i < |products| && 0 <= k < |products[i].requirements| ==>
                    products[i].requirements[k].articleId in articles)
  {
  }

  /** Products as the upload parser returns them (every quantity positive)
      that pass both checks are accepted by the requirement insert. */
  lemma CheckedUploadAccepted(products: seq<CreateProductDTO>, articles: map<int, ArticleRow>,
                              stored: seq<ProductRow>)
    requires forall i, k :: 0 <= i < |products| && 0 <= k < |products[i].requirements| ==>
               products[i].requirements[k].quantity > 0
    requires SaveProductsCheck(products, articles, stored).Passed?
    ensures RequirementsAccepted(products, articles)
  {
    SaveProductsCheckPasses(products, articles, stored);
  }

  /** `ProductBusiness.save_products`: both checks, then `create_products`
      inside a transaction. When a check raises, or the store rejects the
      requirement rows and the transaction rolls back, nothing is created. */
  method SaveProducts(db: Database, products: seq<CreateProductDTO>) returns (result: Check)
    requires db.Valid()
    modifies db
    ensures db.Valid()
    ensures result == (var check := SaveProductsCheck(products, old(db.articles), old(db.products));
                       if !check.Passed? then check
                       else if RequirementsAccepted(products, old(db.articles)) then Passed
                       else Rejected)
    ensures result.Passed? ==>
              db.products == old(db.products) + NewProductRows(old(db.nextProductId), ProductNames(products))
              && db.requirements == old(db.requirements) + RequirementRowsFor(old(db.nextProductId), products)
              && db.nextProductId == old(db.nextProductId) + |products|
    ensures !result.Passed? ==>
              db.products == old(db.products) && db.requirements == old(db.requirements)
              && db.nextProductId == old(db.nextProductId)
    ensures db.articles == old(db.articles)
  {
    var names := ValidateProductNamesNotExist(products, db.products);
    if !names.Passed? {
      return names;
    }
    var articles := ValidateRequirementArticlesExist(products, db.articles.Keys);
    if !articles.Passed? {
      return articles;
    }
    var savedProducts, savedRequirements, savedNext := db.products, db.requirements, db.nextProductId;
    assert ValidTables(db.articles, savedProducts, savedRequirements, savedNext);
    var ok := CreateProducts(db, products);
    if !ok {
      db.RollBack(db.articles, savedProducts, savedRequirements, savedNext);
      return Rejected;
    }
    return Passed;
  }
}
