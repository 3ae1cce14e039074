/**
 * The Product entity of the data-access layer and the category enumeration.
 * The entity's Category column is a string in the source; the model stores the
 * enumeration value itself, and its text is the enumeration member's name.
 */
module Entities {
  import opened Wrappers
  import opened Guids

  /** C# int: 32-bit two's complement. */
  newtype int32 = x: int | -0x8000_0000 <= x < 0x8000_0000

  const Int32Max: int32 := 0x7FFF_FFFF

  /** CategoryOptions, members numbered in declaration order. */
  datatype CategoryOptions = Electronics | HomeAppliances | Furniture | Accessories

  function CodeOf(c: CategoryOptions): int32 {
    match c
    case Electronics => 0
    case HomeAppliances => 1
    case Furniture => 2
    case Accessories => 3
  }

  /**
   * A C# enum variable may hold any value of its underlying int; only the
   * declared members decode.
   */
  function CategoryFromCode(code: int32): (r: Option<CategoryOptions>)
    ensures r.Some? <==> 0 <= code <= 3
    ensures r.Some? ==> CodeOf(r.value) == code
  {
    if code == 0 then Some(Electronics)
    else if code == 1 then Some(HomeAppliances)
    else if code == 2 then Some(Furniture)
    else if code == 3 then Some(Accessories)
    else None
  }

  /** Every declared member decodes from its own value. */
  lemma CategoryCodeRoundTrip(c: CategoryOptions)
    ensures CategoryFromCode(CodeOf(c)) == Some(c)
  {
    match c
    case Electronics =>
    case HomeAppliances =>
    case Furniture =>
    case Accessories =>
  }

  /** Enum.ToString(): the member's name. */
  function CategoryName(c: CategoryOptions): string {
    match c
    case Electronics => "Electronics"
    case HomeAppliances => "HomeAppliances"
    case Furniture => "Furniture"
    case Accessories => "Accessories"
  }

  datatype Product = Product(
    productID: Guid,
    productName: string,
    category: CategoryOptions,
    unitPrice: real,
    quantityInStock: int32)
}
