/** The page-number arithmetic of `OpenLibraryDataProvider.search`. */
module Search {

  /** Python's `a // b`: division rounding toward negative infinity. Dafny's `/`
      is Euclidean, which differs from it when the divisor is negative. */
  function FloorDiv(a: int, b: int): (q: int)
    requires b != 0
    ensures b > 0 ==> q * b <= a < q * b + b
    ensures b < 0 ==> q * b >= a > q * b + b
  {
    if b > 0 then a / b else (-a) / (-b)
  }

  /** `(offset // limit) + 1 if limit else 1`: the 1-based page holding `offset`. */
  function Page(offset: int, limit: int): (page: int)
    ensures limit == 0 ==> page == 1
    ensures limit > 0 ==> (page - 1) * limit <= offset < page * limit
    ensures limit < 0 ==> (page - 1) * limit >= offset > page * limit
  {
    if limit != 0 then FloorDiv(offset, limit) + 1 else 1
  }

  /** A non-negative offset with a positive limit lands on a page numbered from 1. */
  lemma PageAtLeastOne(offset: int, limit: int)
    requires offset >= 0 && limit > 0
    ensures Page(offset, limit) >= 1
  {
  }

  /** Offset 20 with limit 10 is page 3. */
  lemma PageExample()
    ensures Page(20, 10) == 3
    ensures Page(0, 0) == 1
  {
  }
}
