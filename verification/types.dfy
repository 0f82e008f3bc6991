/** The storefront's record types: products, the filter state of the
    listing page, and the messages of the stylist chat. */
module Types {

  /** An optional value; stands for the optional (`?`) fields of a record
      and for values that may be `null`. */
  datatype Option<+T> = None | Some(value: T)

  /** A catalogue entry. Prices are whole amounts (the model does not
      represent fractional prices). `isNew` and `isSale` are optional flags:
      `None` is an absent field. */
  datatype Product = Product(
    id: int,
    name: string,
    brand: string,
    price: int,
    originalPrice: Option<int>,
    category: string,
    image: string,
    isNew: Option<bool>,
    isSale: Option<bool>
  )

  /** An absent `isNew` flag reads as false. */
  predicate IsNew(p: Product) {
    p.isNew == Some(true)
  }

  /** The three orderings offered by the sort menu. */
  datatype SortMode = Newest | PriceAsc | PriceDesc

  /** The user's view criteria. `minPrice` is carried but never applied. */
  datatype FilterState = FilterState(
    category: seq<string>,
    minPrice: int,
    maxPrice: int,
    sort: SortMode
  )

  datatype Role = User | Model

  datatype ChatMessage = ChatMessage(role: Role, text: string, isThinking: Option<bool>)

  /** A message as the chat component builds it: the thinking flag is never set. */
  function Message(role: Role, text: string): ChatMessage {
    ChatMessage(role, text, None)
  }
}
