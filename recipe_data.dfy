/** The recipe record shared by the server routes and the client components. */
module RecipeData {
  import opened Wrappers

  /**
   * A stored recipe as the API returns it. `createdAt` is the creation stamp the
   * public list is sorted by.
   */
  datatype Recipe = Recipe(
    id: string,
    title: string,
    description: string,
    ingredients: string,
    instructions: string,
    createdAt: nat)

  /** A create/update request body: each field may be missing. */
  datatype Body = Body(
    title: Option<string>,
    description: Option<string>,
    ingredients: Option<string>,
    instructions: Option<string>)

  /** The four text fields once validated and trimmed. */
  datatype Fields = Fields(title: string, description: string, ingredients: string, instructions: string)

  predicate IsHexDigit(c: char) {
    '0' <= c <= '9' || 'a' <= c <= 'f' || 'A' <= c <= 'F'
  }

  /** An id Mongoose can cast to an ObjectId: 24 hexadecimal digits. */
  predicate IsValidId(id: string) {
    |id| == 24 && forall k :: 0 <= k < |id| ==> IsHexDigit(id[k])
  }
}
