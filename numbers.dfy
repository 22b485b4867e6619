/** qMin and qMax on integers, shared by the colour arithmetic, the cell's
    heat maximum and the widget's column count. */
module Numbers {

  function Min(a: int, b: int): int { if a <= b then a else b }

  function Max(a: int, b: int): int { if a >= b then a else b }
}
