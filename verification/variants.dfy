/** The two renderers in the repository, TrabCG.py and draw_line.py, interpret the same command
    language with four differences; each is a configuration of one model. */
module Variants {

  datatype Variant = TrabCG | DrawLinePy {

    /** Out-of-range writes wrap modulo the image size (TrabCG.py), or index raw (draw_line.py). */
    predicate Wraps()
    {
      this == TrabCG
    }

    /** Points of `L`, `P` and `R` go through `apply_matrix` (TrabCG.py) or are drawn as given. */
    predicate TransformsPoints()
    {
      this == TrabCG
    }

    /** `m` sets `matrix := matrix . delta` (TrabCG.py) or `M := delta . M` (draw_line.py). */
    predicate PostMultiplies()
    {
      this == TrabCG
    }

    /** The `P` / `R` parameter count includes the point count N itself (draw_line.py). */
    predicate CountIncludesN()
    {
      this == DrawLinePy
    }
  }
}
