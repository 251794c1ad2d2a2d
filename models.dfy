/** Records of the portfolio application (portfolio/models.py), as values.
    Timestamps are opaque instants ordered as integers; float fields are
    modelled as exact reals. */
module Models {

  datatype Option<T> = None | Some(value: T)

  /** The single portfolio row; its positions are passed separately as its
      `position_set`. */
  datatype Portfolio = Portfolio(balance: real)

  /** An instrument. The symbol is not declared unique by the schema. */
  datatype Stock = Stock(symbol: string, name: string)

  /** One buy of `quantity` shares of `stock` at `price`, opened at `openedAt`
      and still held while `closedAt` is None. */
  datatype Position = Position(
    stock: Stock,
    quantity: int,
    openedAt: int,
    closedAt: Option<int>,
    price: real)

  predicate IsOpen(p: Position)
  {
    p.closedAt.None?
  }

  function SymbolOf(p: Position): string
  {
    p.stock.symbol
  }
}
