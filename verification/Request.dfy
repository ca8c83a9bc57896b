/** Requests, and the bounds of a numbered page in machine arithmetic (page/request.go). The
    platform's uint is taken to have 64 bits. */
module Request {
  import opened Wrappers

  const TWO_TO_64 := 0x1_0000_0000_0000_0000
  const MAX_INT64 := 0x7FFF_FFFF_FFFF_FFFF

  type Uint = n: nat | n < TWO_TO_64

  function Plus(a: Uint, b: Uint): Uint { (a + b) % TWO_TO_64 }

  function Minus(a: Uint, b: Uint): Uint { (a - b) % TWO_TO_64 }

  function Times(a: Uint, b: Uint): Uint { (a * b) % TWO_TO_64 }

  datatype PageRequest = PageRequest(number: Uint, size: Uint, sort: seq<string>)

  datatype CursorRequest = CursorRequest(size: Uint, after: string, sort: seq<string>)

  /** LIMIT and OFFSET of a numbered page. */
  function Bounds(r: PageRequest): Result<(Uint, Uint)> {
    if r.number == 0 || r.size == 0 || r.size >= MAX_INT64 then Err(ErrInvalidRequest)
    else if Minus(r.number, 1) > MAX_INT64 / r.size then Err(ErrInvalidRequest)
    else Ok((r.size, Times(Minus(r.number, 1), r.size)))
  }

  lemma QuotientBound(a: nat, b: nat, c: nat)
    requires b > 0
    ensures a <= c / b <==> a * b <= c
  {
    assert c == (c / b) * b + c % b;
    if a <= c / b {
      ProductIsMonotone(a, c / b, b);
    } else {
      ProductIsMonotone(c / b + 1, a, b);
    }
  }

  lemma ProductIsMonotone(a: nat, b: nat, c: nat)
    requires a <= b
    ensures a * c <= b * c
  {
  }

  lemma NoWrap(number: Uint, size: Uint)
    requires number > 0 && (number - 1) * size <= MAX_INT64
    ensures Times(Minus(number, 1), size) == (number - 1) * size
  {
  }

  /** A request is accepted exactly if its number and size are positive and its limit with the
      lookahead row, and its offset, fit a bigint; and then neither wraps. */
  lemma BoundsAreExact(r: PageRequest)
    ensures Bounds(r).Ok? <==>
            && r.number > 0 && r.size > 0 && r.size + 1 <= 0x7FFF_FFFF_FFFF_FFFF
            && (r.number - 1) * r.size <= 0x7FFF_FFFF_FFFF_FFFF
    ensures Bounds(r).Ok? ==>
            Bounds(r).value == (r.size, (r.number - 1) * r.size) && Plus(Bounds(r).value.0, 1) == r.size + 1
    ensures Bounds(r).Err? ==> Bounds(r).error == ErrInvalidRequest
  {
    if r.number > 0 && r.size > 0 && r.size < MAX_INT64 {
      QuotientBound(r.number - 1, r.size, MAX_INT64);
      if (r.number - 1) * r.size <= MAX_INT64 { NoWrap(r.number, r.size); }
    }
  }
}
