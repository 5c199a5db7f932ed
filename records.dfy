/** The plain records passed between the parsers, the product rules and the
    repositories. Field names follow the Python dataclasses. */
module Records {

  /** One requirement of a product being created: `amount_of` units of an article. */
  datatype CreateProductRequirementDTO = CreateProductRequirementDTO(quantity: int, articleId: int)

  /** A product being created, with its requirements in upload order. */
  datatype CreateProductDTO = CreateProductDTO(name: string, requirements: seq<CreateProductRequirementDTO>)

  /** An uploaded article, and the article nested in a fetched requirement. */
  datatype ArticleDTO = ArticleDTO(id: int, name: string, stock: int)

  /** A stored requirement with the article it consumes. */
  datatype ProductRequirementDBO = ProductRequirementDBO(quantity: int, article: ArticleDTO)

  /** A stored product with its requirements, as fetched for availability. */
  datatype ProductDBO = ProductDBO(id: int, name: string, requirements: seq<ProductRequirementDBO>)

  /** One entry of the availability listing. */
  datatype ProductAvailability = ProductAvailability(id: int, name: string, availability: int)
}
