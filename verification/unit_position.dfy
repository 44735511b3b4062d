/**
 * Where the unit label sits relative to the number, with the integer codes used
 * in layout attributes and the lenient `parse` that maps any code back.
 */
module UnitPositions {
  import opened Options

  datatype UnitPosition = Front | Back {
    /** The attribute code carried by each constant. */
    function Value(): int
    {
      match this
      case Front => 0
      case Back => 1
    }
  }

  /** The enum's constants in declaration order, as `values()` lists them. */
  const Entries: seq<UnitPosition> := [Front, Back]

  /** `firstOrNull { it.value == code }` over `entries`; a null code matches nothing. */
  function FirstWithValue(entries: seq<UnitPosition>, code: Option<int>): (r: Option<UnitPosition>)
    ensures r.Some? ==> r.value in entries && code == Some(r.value.Value())
    ensures r.None? ==> forall e :: e in entries ==> code != Some(e.Value())
    ensures r.Some? ==> (exists k :: 0 <= k < |entries| && entries[k] == r.value &&
                          forall j :: 0 <= j < k ==> code != Some(entries[j].Value()))
  {
    if |entries| == 0 then None
    else if code == Some(entries[0].Value()) then Some(entries[0])
    else
      var rest := FirstWithValue(entries[1..], code);
      if rest.Some? then
        var k :| 0 <= k < |entries[1..]| && entries[1..][k] == rest.value &&
          forall j :: 0 <= j < k ==> code != Some(entries[1..][j].Value());
        assert entries[k + 1] == rest.value;
        assert forall j :: 0 <= j < k + 1 ==> code != Some(entries[j].Value()) by {
          forall j | 0 <= j < k + 1
            ensures code != Some(entries[j].Value())
          {
            if j > 0 { assert entries[j] == entries[1..][j - 1]; }
          }
        }
        rest
      else
        assert forall e :: e in entries ==> e == entries[0] || e in entries[1..];
        rest
  }

  /** `UnitPosition.parse`: the constant with the given code, BACK otherwise. */
  function Parse(code: Option<int>): (p: UnitPosition)
    ensures p == Front <==> code == Some(Front.Value())
  {
    FirstWithValue(Entries, code).GetOr(Back)
  }

  /** The two codes differ, so at most one constant matches a code. */
  lemma CodesDistinct()
    ensures Front.Value() != Back.Value()
    ensures forall p: UnitPosition, q: UnitPosition :: p.Value() == q.Value() ==> p == q
  {
  }

  /** Both known codes parse to their constant. */
  lemma ParseKnownCodes()
    ensures Parse(Some(0)) == Front
    ensures Parse(Some(1)) == Back
  {
  }

  /** Any other code, and a missing one, falls back to BACK. */
  lemma ParseFallback(code: Option<int>)
    requires code != Some(0) && code != Some(1)
    ensures Parse(code) == Back
  {
  }

  /** Every constant survives being written as its code and parsed back. */
  lemma ParseRoundTrip(p: UnitPosition)
    ensures Parse(Some(p.Value())) == p
  {
  }
}
