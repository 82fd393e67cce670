/** Small arithmetic the models share. */
module Numbers {

  function Min(a: int, b: int): int { if a <= b then a else b }

  function Max(a: int, b: int): int { if a <= b then b else a }

  /** `abs_diff`. */
  function Distance(a: int, b: int): nat { if a <= b then b - a else a - b }
}
