/** A single card of the pyramid: its number, its colour, its coordinates,
    and the sprite index the card shows for a number and a colour. */
module Cards {

  /** The four colours a card can take; the order fixes the sprite offsets. */
  datatype State = Blue | Gray | Red | Green

  /** A card as the game stores it: the number on it (1 to 9), its colour,
      the level it sits on (0 is the apex) and its position in that level. */
  datatype Card = Card(num: int, state: State, level: int, pos: int)
  {
    /** Setting the card number stores it; nothing else about the card changes. */
    function WithNum(v: int): (c: Card)
      ensures c.num == v
      ensures c.state == state && c.level == level && c.pos == pos
    {
      this.(num := v)
    }

    /** Setting the card state stores it; nothing else about the card changes. */
    function WithState(s: State): (c: Card)
      ensures c.state == s
      ensures c.num == num && c.level == level && c.pos == pos
    {
      this.(state := s)
    }

    /** The level is a plain stored field. */
    function WithLevel(l: int): (c: Card)
      ensures c.level == l
      ensures c.num == num && c.state == state && c.pos == pos
    {
      this.(level := l)
    }

    /** The position is a plain stored field. */
    function WithPos(p: int): (c: Card)
      ensures c.pos == p
      ensures c.num == num && c.state == state && c.level == level
    {
      this.(pos := p)
    }
  }

  /** Number of sprites per card number: one per colour. */
  const N_CARDS := 4

  /** Smallest and largest card number. */
  const MIN_NUM := 1
  const MAX_NUM := 9

  /** The offset of a colour within the sprites of one number. */
  function StateOffset(s: State): (k: int)
    ensures 0 <= k < N_CARDS
  {
    match s
    case Blue => 0
    case Gray => 1
    case Red => 2
    case Green => 3
  }

  /** The colour whose sprite sits at a given offset. */
  function StateAt(k: int): (s: State)
    requires 0 <= k < N_CARDS
    ensures StateOffset(s) == k
  {
    if k == 0 then Blue else if k == 1 then Gray else if k == 2 then Red else Green
  }

  /** The sprite a card shows: the four sprites of number `num` are stored
      consecutively, in colour order. Every card in range picks a slot among
      the first 36, and the slot gives back both the number and the colour. */
  function SpriteIndex(num: int, s: State): (i: int)
    requires MIN_NUM <= num <= MAX_NUM
    ensures 0 <= i < MAX_NUM * N_CARDS
    ensures i / N_CARDS + 1 == num && StateAt(i % N_CARDS) == s
  {
    (num - 1) * N_CARDS + StateOffset(s)
  }

  /** Distinct cards show distinct sprites. */
  lemma SpriteIndexInjective(n1: int, s1: State, n2: int, s2: State)
    requires MIN_NUM <= n1 <= MAX_NUM && MIN_NUM <= n2 <= MAX_NUM
    requires SpriteIndex(n1, s1) == SpriteIndex(n2, s2)
    ensures n1 == n2 && s1 == s2
  {
    var i := SpriteIndex(n1, s1);
    assert i / N_CARDS + 1 == n1 && i / N_CARDS + 1 == n2;
    assert StateAt(i % N_CARDS) == s1 && StateAt(i % N_CARDS) == s2;
  }

  /** The number of slots the sprite list is declared with. */
  const DEFAULT_SPRITE_SLOTS := 27

  /** Every sprite of number 9 lies past the declared slots. */
  lemma DefaultSpriteListTooShort()
    ensures forall s: State :: SpriteIndex(MAX_NUM, s) >= DEFAULT_SPRITE_SLOTS
  {
  }

  /** The sprite a card shows, from a sprite list long enough for all 36 slots:
      one of the first 36. */
  function CardSprite<T>(sprites: seq<T>, c: Card): (t: T)
    requires MIN_NUM <= c.num <= MAX_NUM
    requires |sprites| >= MAX_NUM * N_CARDS
    ensures exists k :: 0 <= k < MAX_NUM * N_CARDS && sprites[k] == t
  {
    sprites[SpriteIndex(c.num, c.state)]
  }
}
