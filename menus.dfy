/** Hit-tests of the two clickable screens of the 2D game: the main menu's
    Start and Exit buttons and the three character cards. Mouse coordinates
    are window pixels with y measured upwards (the handler flips GLUT's y). */
module Menus {
  import opened Geometry
  import opened Wrappers

  datatype Character = Car | Dino | Cat

  /** The click landed on the screen's button or card. */
  datatype MenuHit = StartButton | ExitButton | NoButton

  /** Closed box: both edges count as inside. */
  predicate InRect(x: real, y: real, left: real, bottom: real, w: real, h: real) {
    left <= x <= left + w && bottom <= y <= bottom + h
  }

  const ButtonW: real := 200.0
  const ButtonH: real := 50.0
  const ButtonX: real := WindowWidth as real / 2.0 - ButtonW / 2.0
  const StartY: real := WindowHeight as real / 2.0 + 30.0
  const ExitY: real := StartY - 80.0

  const CardW: real := 180.0
  const CardH: real := 160.0
  const CardY: real := WindowHeight as real / 2.0 - CardH / 2.0
  const CarCardX: real := WindowWidth as real / 2.0 - CardW - 40.0
  const DinoCardX: real := WindowWidth as real / 2.0 - CardW / 2.0
  const CatCardX: real := WindowWidth as real / 2.0 + 40.0

  predicate OnStart(x: real, y: real) { InRect(x, y, ButtonX, StartY, ButtonW, ButtonH) }
  predicate OnExit(x: real, y: real) { InRect(x, y, ButtonX, ExitY, ButtonW, ButtonH) }

  predicate OnCard(c: Character, x: real, y: real) {
    match c
    case Car => InRect(x, y, CarCardX, CardY, CardW, CardH)
    case Dino => InRect(x, y, DinoCardX, CardY, CardW, CardH)
    case Cat => InRect(x, y, CatCardX, CardY, CardW, CardH)
  }

  /** The main menu: Start is tested first, then Exit. The two buttons do not
      overlap, so each answer holds exactly when the click is on that button. */
  function MenuButtonAt(x: int, y: int): (b: MenuHit)
    ensures b == StartButton <==> OnStart(x as real, y as real)
    ensures b == ExitButton <==> OnExit(x as real, y as real)
    ensures b == NoButton <==> !OnStart(x as real, y as real) && !OnExit(x as real, y as real)
  {
    if OnStart(x as real, y as real) then StartButton
    else if OnExit(x as real, y as real) then ExitButton
    else NoButton
  }

  /** The character screen: the first card containing the click, in the order
      car, dino, cat; none when the click misses every card. */
  function CardAt(x: int, y: int): (c: Option<Character>)
    ensures c.Some? ==> OnCard(c.value, x as real, y as real)
    ensures c.None? <==> !OnCard(Car, x as real, y as real) && !OnCard(Dino, x as real, y as real)
                         && !OnCard(Cat, x as real, y as real)
    ensures c == Some(Dino) ==> !OnCard(Car, x as real, y as real)
    ensures c == Some(Cat) ==> !OnCard(Car, x as real, y as real) && !OnCard(Dino, x as real, y as real)
  {
    if OnCard(Car, x as real, y as real) then Some(Car)
    else if OnCard(Dino, x as real, y as real) then Some(Dino)
    else if OnCard(Cat, x as real, y as real) then Some(Cat)
    else None
  }

  /** The cards are laid out 180 wide at x = 180, 310 and 440, so the middle
      card overlaps both of its neighbours; a click on an overlap goes to the
      card that is tested first. The car and cat cards are disjoint. */
  lemma CardsOverlap()
    ensures OnCard(Car, 330.0, 300.0) && OnCard(Dino, 330.0, 300.0) && CardAt(330, 300) == Some(Car)
    ensures OnCard(Dino, 460.0, 300.0) && OnCard(Cat, 460.0, 300.0) && CardAt(460, 300) == Some(Dino)
    ensures forall x: real, y: real :: !(OnCard(Car, x, y) && OnCard(Cat, x, y))
  {
  }
}
