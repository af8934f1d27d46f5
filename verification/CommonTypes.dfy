/** What every table shares: the streets in order, the seat limit and the range of an int. */
module CommonTypes {
  import opened Wrappers

  const INT_MAX: int := 0x7fff_ffff
  const MAX_SEATS: nat := 6
  const STREETS: nat := 5

  datatype Street = Preflop | Flop | Turn | River | Showdown

  function StreetIndex(street: Street): (i: nat)
    ensures i < STREETS && StreetFromIndex(i) == Some(street)
  {
    match street
    case Preflop => 0
    case Flop => 1
    case Turn => 2
    case River => 3
    case Showdown => 4
  }

  /** street_from_u8. */
  function StreetFromIndex(value: nat): Option<Street> {
    if value == 0 then Some(Preflop)
    else if value == 1 then Some(Flop)
    else if value == 2 then Some(Turn)
    else if value == 3 then Some(River)
    else if value == 4 then Some(Showdown)
    else None
  }
}
