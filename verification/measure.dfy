/**
 * `measureDimension`: the size a view reports for one axis, from the size it
 * would like and the parent's measure spec (already split into mode and size;
 * the bit packing of a measure spec belongs to the toolkit).
 */
module Measure {
  import opened KotlinMath

  datatype MeasureMode = Unspecified | Exactly | AtMost

  function MeasureDimension(desiredSize: int, mode: MeasureMode, specSize: int): (r: int)
    ensures mode == Exactly ==> r == specSize
    ensures mode == AtMost ==> r <= specSize && r <= desiredSize && (r == desiredSize || r == specSize)
    ensures mode == Unspecified ==> r == desiredSize
  {
    if mode == Exactly then specSize
    else
      var result := desiredSize;
      if mode == AtMost then MinInt(result, specSize) else result
  }

  /** The desired size is granted whenever the parent leaves room for it. */
  lemma DesiredSizeGrantedWhenItFits(desiredSize: int, mode: MeasureMode, specSize: int)
    requires mode != Exactly && (mode == AtMost ==> desiredSize <= specSize)
    ensures MeasureDimension(desiredSize, mode, specSize) == desiredSize
  {
  }
}
