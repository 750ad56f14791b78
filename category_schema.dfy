/** The category document: a required, unique name and nothing else. */
module CategorySchema {

  datatype Category = Category(name: string)

  /** `required: true` on the name. */
  predicate ValidCategory(c: Category) {
    c.name != ""
  }

  /** The unique index on the name compares names exactly: no trimming and
      no case folding. */
  predicate SameName(a: Category, b: Category) {
    a.name == b.name
  }
}
