/**
 * What the route loader sees of a JSON text once the streaming tokenizer and the
 * tree reader have gone over it. Tokenizing and tree building belong to the JSON
 * library; only the outcomes the loader branches on are kept.
 */
module Json {

  /** A tree node read for one array element. Only what the loader inspects is kept:
      for an object the names of its fields, and for every node its serialized text
      (the text handed to the mapper). */
  datatype Node =
    | Obj(fields: set<string>, text: string)
    | NonObject(text: string)  // an array, number, string, boolean or JSON null

  /** Reading one array element into a tree either fails or yields a node. */
  datatype Element = ReadFailed(message: string) | Parsed(node: Node)

  /** How the token stream goes on after the last element that was read:
      the closing bracket, or a tokenizer failure (an I/O or syntax error). */
  datatype ArrayEnd = Closed | Broken(message: string)

  /** A JSON text as a token stream. */
  datatype Payload =
    | NotArray                                        // the first token is not '[' (an empty text included)
    | Unreadable(message: string)                     // reading the first token fails
    | Array(elements: seq<Element>, end: ArrayEnd)    // '[' followed by the elements
}
