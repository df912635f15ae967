/** The VT100 terminal emulator and the screens it draws on. */
module Vt100 {
  import opened Bytes

  const WIDTH: nat := 80
  const HEIGHT: nat := 25
  const CELLS: nat := 2000
  const ITEMS: nat := 8

  const BLANK: byte := 32
  const YELLOW: nat := 14
  const WHITE: nat := 15

  /** Foreground and background, each a number below 16. */
  datatype Color = Color(fg: nat, bg: nat)

  const DEFAULT_COLOR: Color := Color(7, 0)

  datatype Cell = Cell(c: byte, color: Color)

  type Screen = seq<Cell>

  datatype State = Idle | Esc | Csi | ParenLeft | ParenRight | Question

  function Index(x: nat, y: nat): nat
  {
    y * WIDTH + x
  }

  // ----- What the drawing operations make of a screen -----

  /** The cells from lo up to hi are c. */
  function Filled(s: Screen, lo: nat, hi: nat, c: Cell): (r: Screen)
    ensures |r| == |s| && forall i :: 0 <= i < |s| ==> r[i] == if lo <= i < hi then c else s[i]
  {
    seq(|s|, i requires 0 <= i < |s| => if lo <= i < hi then c else s[i])
  }

  /** One line up, with a blank line at the bottom. */
  function Scrolled(s: Screen, c: Cell): (r: Screen)
    requires |s| == CELLS
    ensures |r| == CELLS
    ensures forall i :: 0 <= i < CELLS ==> r[i] == if i < CELLS - WIDTH then s[i + WIDTH] else c
  {
    seq(CELLS, i requires 0 <= i < CELLS => if i < CELLS - WIDTH then s[i + WIDTH] else c)
  }

  /** A screen with its cursor. */
  datatype View = View(screen: Screen, row: nat, col: nat)

  predicate OnScreen(v: View)
  {
    |v.screen| == CELLS && v.row < HEIGHT && v.col < WIDTH
  }

  /** The cursor goes down a line; at the bottom the screen scrolls. */
  function LineDown(v: View, blank: Cell): View
    requires |v.screen| == CELLS
  {
    if v.row + 1 == HEIGHT then v.(screen := Scrolled(v.screen, blank)) else v.(row := v.row + 1)
  }

  /** The cursor goes right; at the edge to the start of the next line. */
  function Right(v: View, blank: Cell): View
    requires |v.screen| == CELLS
  {
    if v.col + 1 == WIDTH then LineDown(v.(col := 0), blank) else v.(col := v.col + 1)
  }

  /** The input flags of the active terminal that the display obeys. */
  datatype Iflags = Iflags(inlcr: bool, igncr: bool, icrnl: bool)

  /**
   What a character outside escape sequences does. The cursor stays on the
   screen: tab stops are 8 apart and divide the width.
   */
  function Typed(v: View, c: byte, color: Color, f: Iflags): (r: View)
    requires OnScreen(v)
    ensures OnScreen(r)
  {
    var blank := Cell(BLANK, color);
    if c == 0 || c == 7 then v
    else if c == 10 then (if f.inlcr then v.(col := 0) else LineDown(v.(col := 0), blank))
    else if c == 11 || c == 12 then LineDown(v, blank)
    else if c == 13 then
      (if f.igncr then v else if f.icrnl then LineDown(v.(col := 0), blank) else v.(col := 0))
    else if c == 9 then Right(v.(col := v.col - v.col % 8 + 7), blank)
    else Right(v.(screen := v.screen[Index(v.col, v.row) := Cell(c, color)]), blank)
  }

  // ----- Character attributes -----

  datatype Look = Look(color: Color, reverse: bool)

  const PALETTE: seq<nat> := [0, 4, 2, YELLOW, 1, 5, 3, WHITE]

  /** One number of a "select graphic rendition" sequence. */
  function Attribute(l: Look, n: byte): Look
  {
    if n == 0 then Look(DEFAULT_COLOR, false)
    else if n == 7 then l.(reverse := true)
    else if 30 <= n <= 37 then l.(color := l.color.(fg := PALETTE[n - 30]))
    else if 40 <= n <= 47 then l.(color := l.color.(bg := PALETTE[n - 40]))
    else l
  }

  /** The first n numbers in order. */
  function Attributes(l: Look, items: seq<byte>, n: nat): Look
    requires n <= |items|
  {
    if n == 0 then l else Attribute(Attributes(l, items, n - 1), items[n - 1])
  }

  function Shown(l: Look): Color
  {
    if l.reverse then Color(l.color.bg, l.color.fg) else l.color
  }

  /** A 1-based position, with 0 for the first, brought onto the screen. */
  function Place(n: byte, limit: nat): (p: nat)
    requires limit > 0
    ensures p < limit
  {
    var p := if n > 0 then n - 1 else 0;
    if p >= limit then limit - 1 else p
  }

  // ----- Erasing -----

  /** The cells that "erase in display" clears, by its number. */
  function Erased(v: View, n: byte, blank: Cell): (r: Screen)
    requires OnScreen(v)
    ensures |r| == CELLS
  {
    var at := Index(v.col, v.row);
    if n == 0 then Filled(v.screen, at, CELLS, blank)
    else if n == 1 then Filled(v.screen, 0, at, blank)
    else if n == 2 then Filled(v.screen, 0, CELLS, blank)
    else v.screen
  }

  /** The cells that "erase in line" clears, by its number. */
  function LineErased(v: View, n: byte, blank: Cell): (r: Screen)
    requires OnScreen(v)
    ensures |r| == CELLS
  {
    var at, start := Index(v.col, v.row), Index(0, v.row);
    if n == 0 then Filled(v.screen, at, start + WIDTH, blank)
    else if n == 1 then Filled(v.screen, start, at, blank)
    else if n == 2 then Filled(v.screen, start, start + WIDTH, blank)
    else v.screen
  }

  /** What the final character of a control sequence does to the screen and the cursor. */
  function Controlled(v: View, c: byte, items: seq<byte>, blank: Cell): (r: View)
    requires OnScreen(v) && |items| == ITEMS
    ensures OnScreen(r)
  {
    if c == 'H' as nat then v.(row := Place(items[0], HEIGHT), col := Place(items[1], WIDTH))
    else if c == 'J' as nat then v.(screen := Erased(v, items[0], blank))
    else if c == 'K' as nat then v.(screen := LineErased(v, items[0], blank))
    else v
  }

  predicate IsDigit(c: byte)
  {
    48 <= c <= 57
  }

  /** A number with one more digit, as an unsigned char. */
  function Grown(n: byte, c: byte): byte
    requires IsDigit(c)
  {
    (n as nat * 10 + c as nat - 48) % 256
  }

  // ----- What a character does to a terminal -----

  /** The escape sequence parser: its state, its numbers, and the number being read. */
  datatype Parser = Parser(state: State, items: seq<byte>, curr: nat)

  const CLEAR: Parser := Parser(Idle, Zeros(ITEMS), 0)

  predicate ParserOk(p: Parser)
  {
    |p.items| == ITEMS && p.curr < ITEMS && (p.state == Idle ==> p == CLEAR)
  }

  datatype Term = Term(view: View, look: Look, keypad: bool, parser: Parser)

  /** The cursor is on the screen, the item index is in range, and an idle parser is clear. */
  predicate TermOk(t: Term)
  {
    OnScreen(t.view) && ParserOk(t.parser)
  }

  function WithDigit(p: Parser, c: byte): Parser
    requires ParserOk(p) && IsDigit(c)
  {
    p.(items := p.items[p.curr := Grown(p.items[p.curr], c)])
  }

  function NextParser(p: Parser, c: byte): Parser
    requires ParserOk(p)
  {
    match p.state
    case Idle => if c == 27 then p.(state := Esc) else p
    case Esc =>
      if c == '[' as nat then p.(state := Csi)
      else if c == '(' as nat then p.(state := ParenLeft)
      else if c == ')' as nat then p.(state := ParenRight)
      else CLEAR
    case Csi =>
      if c == '?' as nat then p.(state := Question)
      else if IsDigit(c) then WithDigit(p, c)
      else if c == ';' as nat && p.curr + 1 < ITEMS then p.(curr := p.curr + 1)
      else CLEAR
    case Question => if IsDigit(c) then WithDigit(p, c) else CLEAR
    case _ => CLEAR
  }

  function NextLook(t: Term, c: byte): Look
    requires TermOk(t)
  {
    if t.parser.state == Csi && c == 'm' as nat then Attributes(t.look, t.parser.items, t.parser.curr + 1) else t.look
  }

  function NextView(t: Term, c: byte, f: Iflags): View
    requires TermOk(t)
  {
    match t.parser.state
    case Idle => if c != 27 && Printed(c) then Typed(t.view, c, Shown(t.look), f) else t.view
    case Csi => Controlled(t.view, c, t.parser.items, Cell(BLANK, Shown(t.look)))
    case _ => t.view
  }

  /** The terminal after one more character, under the flags of the active terminal. */
  function Fed(t: Term, c: byte, f: Iflags): (r: Term)
    requires TermOk(t)
    ensures TermOk(r)
  {
    var keypad := if t.parser.state == Esc && (c == '=' as nat || c == '>' as nat) then c == '=' as nat else t.keypad;
    Term(NextView(t, c, f), NextLook(t, c), keypad, NextParser(t.parser, c))
  }

  /** The terminal after the characters s. */
  function Feed(t: Term, s: seq<byte>, f: Iflags): (r: Term)
    requires TermOk(t)
    ensures TermOk(r)
  {
    if s == [] then t else Fed(Feed(t, s[..|s| - 1], f), s[|s| - 1], f)
  }

  lemma {:induction false} FeedMore(t: Term, s: seq<byte>, s': seq<byte>, f: Iflags)
    requires TermOk(t)
    ensures Feed(t, s + s', f) == Feed(Feed(t, s, f), s', f)
  {
    hide Fed;
    if s' == [] {
      assert s + s' == s;
    } else {
      var n := |s'| - 1;
      assert (s + s')[..|s| + n] == s + s'[..n];
      FeedMore(t, s, s'[..n], f);
    }
  }

  predicate Digits(ds: seq<byte>)
  {
    forall i :: 0 <= i < |ds| ==> IsDigit(ds[i])
  }

  /** The number that a sequence of decimal digits denotes. */
  function Value(ds: seq<byte>): nat
    requires Digits(ds)
  {
    if ds == [] then 0 else Value(ds[..|ds| - 1]) * 10 + ds[|ds| - 1] - 48
  }

  lemma GrownMod(x: nat, c: byte)
    requires IsDigit(c)
    ensures Grown(x % 256, c) == (x * 10 + c - 48) % 256
  {
    hide Grown;
    Shifted(x / 256 * 10, x % 256 * 10 + c - 48);
    assert x / 256 * 10 * 256 + (x % 256 * 10 + c - 48) == x * 10 + c - 48;
    assert Grown(x % 256, c) == (x % 256 * 10 + c - 48) % 256 by { GrownIs(x % 256, c); }
  }

  lemma GrownIs(n: byte, c: byte)
    requires IsDigit(c)
    ensures Grown(n, c) == (n * 10 + c - 48) % 256
  {
  }

  lemma Shifted(q: nat, r: nat)
    ensures (q * 256 + r) % 256 == r % 256
  {
  }

  /** Digits read into an empty number: their value, modulo 256. */
  lemma {:induction false} DigitsRead(t: Term, ds: seq<byte>, f: Iflags)
    requires TermOk(t) && t.parser.state == Csi && t.parser.items[t.parser.curr] == 0 && Digits(ds)
    ensures Feed(t, ds, f) == t.(parser := t.parser.(items := t.parser.items[t.parser.curr := Value(ds) % 256]))
  {
    if ds == [] {
      assert t.parser.items[t.parser.curr := 0] == t.parser.items;
    } else {
      var n := |ds| - 1;
      DigitsRead(t, ds[..n], f);
      GrownMod(Value(ds[..n]), ds[n]);
    }
  }

  /** Numbers with a semicolon between them. */
  function Listed(ns: seq<seq<byte>>): seq<byte>
  {
    if ns == [] then []
    else if |ns| == 1 then ns[0]
    else Listed(ns[..|ns| - 1]) + [';' as nat] + ns[|ns| - 1]
  }

  predicate Numbers(ns: seq<seq<byte>>)
  {
    forall i :: 0 <= i < |ns| ==> Digits(ns[i])
  }

  /** The numbers as the parser keeps them: modulo 256, and 0 for those not given. */
  function Items(ns: seq<seq<byte>>): (r: seq<byte>)
    requires Numbers(ns)
    ensures |r| == ITEMS
  {
    seq(ITEMS, i requires 0 <= i < ITEMS => if i < |ns| then Value(ns[i]) % 256 else 0)
  }

  /** The parser inside a control sequence with the numbers ns. */
  function Reading(ns: seq<seq<byte>>): (p: Parser)
    requires Numbers(ns) && 1 <= |ns| <= ITEMS
    ensures ParserOk(p)
  {
    Parser(Csi, Items(ns), |ns| - 1)
  }

  lemma {:induction false} NumbersRead(t: Term, ns: seq<seq<byte>>, f: Iflags)
    requires TermOk(t) && t.parser == Parser(Csi, Zeros(ITEMS), 0) && Numbers(ns) && 1 <= |ns| <= ITEMS
    ensures Feed(t, Listed(ns), f) == t.(parser := Reading(ns))
  {
    hide Fed, Value;
    if |ns| == 1 {
      DigitsRead(t, ns[0], f);
      assert Zeros(ITEMS)[0 := Value(ns[0]) % 256] == Items(ns);
    } else {
      var n := |ns| - 1;
      var u := t.(parser := Reading(ns[..n]));
      NumbersRead(t, ns[..n], f);
      FeedMore(t, Listed(ns[..n]) + [';' as nat], ns[n], f);
      FeedMore(t, Listed(ns[..n]), [';' as nat], f);
      Separated(u, f);
      var w := u.(parser := u.parser.(curr := n));
      DigitsRead(w, ns[n], f);
      assert Items(ns[..n])[n := Value(ns[n]) % 256] == Items(ns);
    }
  }

  lemma Separated(t: Term, f: Iflags)
    requires TermOk(t) && t.parser.state == Csi
    ensures Feed(t, [';' as nat], f) ==
            t.(parser := if t.parser.curr + 1 < ITEMS then t.parser.(curr := t.parser.curr + 1) else CLEAR)
  {
    assert Feed(t, [';' as nat][..0], f) == t;
  }

  lemma Opening(t: Term, f: Iflags)
    requires TermOk(t) && t.parser == CLEAR
    ensures Feed(t, [27, '[' as nat], f) == t.(parser := Parser(Csi, Zeros(ITEMS), 0))
  {
    assert [27, '[' as nat][..1] == [27];
    assert Feed(t, [27][..0], f) == t;
    assert Feed(t, [27], f) == t.(parser := CLEAR.(state := Esc));
  }

  /** What ends a control sequence: neither a digit nor a separator nor a question mark. */
  predicate Final(c: byte)
  {
    !IsDigit(c) && c != ';' as nat && c != '?' as nat
  }

  /**
   A whole control sequence, "ESC [", one to eight decimal numbers separated by
   semicolons, and a final character, sent to an idle terminal: the final
   character acts on the numbers modulo 256, and the terminal is idle again.
   */
  lemma SequenceActs(t: Term, ns: seq<seq<byte>>, c: byte, f: Iflags)
    requires TermOk(t) && t.parser == CLEAR && Numbers(ns) && 1 <= |ns| <= ITEMS && Final(c)
    ensures Feed(t, [27, '[' as nat] + Listed(ns) + [c], f) ==
            Term(Controlled(t.view, c, Items(ns), Cell(BLANK, Shown(t.look))),
                 if c == 'm' as nat then Attributes(t.look, Items(ns), |ns|) else t.look, t.keypad, CLEAR)
  {
    hide Feed, Listed, Items, Controlled, Attributes;
    var u := t.(parser := Parser(Csi, Zeros(ITEMS), 0));
    var w := t.(parser := Reading(ns));
    Opening(t, f);
    NumbersRead(u, ns, f);
    FeedMore(t, [27, '[' as nat], Listed(ns), f);
    FeedMore(t, [27, '[' as nat] + Listed(ns), [c], f);
    FeedOne(w, c, f);
  }

  lemma FeedOne(t: Term, c: byte, f: Iflags)
    requires TermOk(t)
    ensures Feed(t, [c], f) == Fed(t, c, f)
  {
    hide Fed;
    assert Feed(t, [c][..0], f) == t;
  }

  // ----- What the sequences mean, cell by cell -----

  /** The cell in column x of row y. */
  function CellAt(v: View, x: nat, y: nat): Cell
    requires OnScreen(v) && x < 80 && y < 25
  {
    v.screen[Index(x, y)]
  }

  /** Two cells stand in the order of their places. */
  lemma IndexOrder(x: nat, y: nat, col: nat, row: nat)
    requires x < 80 && col < 80
    ensures Index(x, y) < Index(col, row) <==> y < row || (y == row && x < col)
    ensures Index(x, y) == Index(col, row) <==> y == row && x == col
    ensures y < 25 ==> Index(x, y) < CELLS
  {
  }

  function Sequence(ns: seq<seq<byte>>, c: byte): seq<byte>
  {
    [27, '[' as nat] + Listed(ns) + [c]
  }

  /** A 1-based position of a screen with n places: 0 stands for the first, what lies beyond for the last. */
  function Clamped(k: nat, n: nat): int
  {
    if k == 0 then 0 else if k > n then n - 1 else k - 1
  }

  /** "ESC [ r ; c H" puts the cursor at row r and column c, counted from 1, and changes no cell. */
  lemma CursorMoves(t: Term, r: seq<byte>, c: seq<byte>, f: Iflags)
    requires TermOk(t) && t.parser == CLEAR && Digits(r) && Digits(c)
    ensures var u := Feed(t, Sequence([r, c], 'H' as nat), f);
      && u.view.screen == t.view.screen && u.look == t.look && u.parser == CLEAR
      && u.view.row == Clamped(Value(r) % 256, 25) && u.view.col == Clamped(Value(c) % 256, 80)
  {
    hide Feed, Listed, Value;
    SequenceActs(t, [r, c], 'H' as nat, f);
  }

  /** The cells that "erase in display" blanks: from the cursor on, before it, or all. */
  predicate InDisplay(n: nat, x: nat, y: nat, col: nat, row: nat)
  {
    || (n == 0 && (y > row || (y == row && x >= col)))
    || (n == 1 && (y < row || (y == row && x < col)))
    || n == 2
  }

  /** "ESC [ n J" blanks those cells in the current look, leaves all others and the cursor alone. */
  lemma DisplayErased(t: Term, d: seq<byte>, f: Iflags, x: nat, y: nat)
    requires TermOk(t) && t.parser == CLEAR && Digits(d) && x < 80 && y < 25
    ensures var u := Feed(t, Sequence([d], 'J' as nat), f);
      && u.view.row == t.view.row && u.view.col == t.view.col && u.look == t.look && u.parser == CLEAR
      && CellAt(u.view, x, y) ==
         if InDisplay(Value(d) % 256, x, y, t.view.col, t.view.row) then Cell(32, Shown(t.look))
         else CellAt(t.view, x, y)
  {
    hide Feed, Listed, Value;
    SequenceActs(t, [d], 'J' as nat, f);
    IndexOrder(x, y, t.view.col, t.view.row);
  }

  /** "ESC [ n K" does the same within the line of the cursor. */
  lemma LineErasedAt(t: Term, d: seq<byte>, f: Iflags, x: nat, y: nat)
    requires TermOk(t) && t.parser == CLEAR && Digits(d) && x < 80 && y < 25
    ensures var u := Feed(t, Sequence([d], 'K' as nat), f);
      && u.view.row == t.view.row && u.view.col == t.view.col && u.look == t.look && u.parser == CLEAR
      && CellAt(u.view, x, y) ==
         if y == t.view.row && InDisplay(Value(d) % 256, x, y, t.view.col, t.view.row) then Cell(32, Shown(t.look))
         else CellAt(t.view, x, y)
  {
    hide Feed, Listed, Value;
    SequenceActs(t, [d], 'K' as nat, f);
    IndexOrder(x, y, t.view.col, t.view.row);
    IndexOrder(x, y, 0, t.view.row);
    IndexOrder(x, y, 0, t.view.row + 1);
  }

  /** The display colour of the n-th colour of the standard: red and blue change places, yellow and white are bright. */
  function Display(n: nat): nat
  {
    if n == 3 then 14 else if n == 7 then 15 else n % 2 * 4 + n / 2 % 2 * 2 + n / 4
  }

  /** What one number of "ESC [ n m" does: reset, reverse, foreground, background, or nothing. */
  lemma LookSet(t: Term, d: seq<byte>, f: Iflags)
    requires TermOk(t) && t.parser == CLEAR && Digits(d)
    ensures var u, n := Feed(t, Sequence([d], 'm' as nat), f), Value(d) % 256;
      && u.view == t.view && u.parser == CLEAR
      && u.look == if n == 0 then Look(Color(7, 0), false)
                   else if n == 7 then t.look.(reverse := true)
                   else if 30 <= n <= 37 then t.look.(color := t.look.color.(fg := Display(n - 30)))
                   else if 40 <= n <= 47 then t.look.(color := t.look.color.(bg := Display(n - 40)))
                   else t.look
  {
    hide Feed, Listed, Value;
    SequenceActs(t, [d], 'm' as nat, f);
    var n := Value(d) % 256;
    assert Items([d])[0] == n;
    assert Attributes(t.look, Items([d]), 1) == Attribute(Attributes(t.look, Items([d]), 0), n);
    if 30 <= n <= 37 {
      PaletteIs(n - 30);
    } else if 40 <= n <= 47 {
      PaletteIs(n - 40);
    }
  }

  lemma PaletteIs(n: nat)
    requires n < 8
    ensures PALETTE[n] == Display(n)
  {
  }

  /** Several numbers act one after the other. */
  lemma {:induction false} LooksSet(t: Term, ns: seq<seq<byte>>, f: Iflags)
    requires TermOk(t) && t.parser == CLEAR && Numbers(ns) && 1 < |ns| <= ITEMS
    ensures var n := |ns| - 1;
      Feed(t, Sequence(ns, 'm' as nat), f) ==
      Feed(Feed(t, Sequence(ns[..n], 'm' as nat), f), Sequence([ns[n]], 'm' as nat), f)
  {
    hide Feed, Listed, Value, Attribute;
    var n := |ns| - 1;
    SequenceActs(t, ns, 'm' as nat, f);
    SequenceActs(t, ns[..n], 'm' as nat, f);
    var u := Feed(t, Sequence(ns[..n], 'm' as nat), f);
    SequenceActs(u, [ns[n]], 'm' as nat, f);
    AttributesSame(t.look, Items(ns), Items(ns[..n]), n);
    assert Attributes(u.look, Items([ns[n]]), 1) == Attribute(Attributes(u.look, Items([ns[n]]), 0), Items([ns[n]])[0]);
  }

  lemma {:induction false} AttributesSame(l: Look, a: seq<byte>, b: seq<byte>, n: nat)
    requires n <= |a| && n <= |b| && forall i :: 0 <= i < n ==> a[i] == b[i]
    ensures Attributes(l, a, n) == Attributes(l, b, n)
  {
    hide Attribute;
    if n > 0 {
      AttributesSame(l, a, b, n - 1);
    }
  }

  /** Sequences that are read and ignored: character sets, and whatever follows a question mark. */
  lemma Ignored(t: Term, ds: seq<byte>, c: byte, f: Iflags)
    requires TermOk(t) && t.parser == CLEAR && Digits(ds) && !IsDigit(c)
    ensures Feed(t, [27, '(' as nat, c], f) == t && Feed(t, [27, ')' as nat, c], f) == t
    ensures Feed(t, [27, '[' as nat, '?' as nat] + ds + [c], f) == t
  {
    hide Value;
    var p := t.parser.(state := Question);
    FeedThree(t, 27, '(' as nat, c, f);
    FeedThree(t, 27, ')' as nat, c, f);
    FeedThree(t, 27, '[' as nat, '?' as nat, f);
    FeedMore(t, [27, '[' as nat, '?' as nat], ds, f);
    FeedMore(t, [27, '[' as nat, '?' as nat] + ds, [c], f);
    QuestionRead(t.(parser := p), ds, f);
    FeedOne(Feed(t.(parser := p), ds, f), c, f);
  }

  lemma FeedThree(t: Term, a: byte, b: byte, c: byte, f: Iflags)
    requires TermOk(t)
    ensures Feed(t, [a, b, c], f) == Fed(Fed(Fed(t, a, f), b, f), c, f)
  {
    hide Fed;
    assert [a, b, c] == [a] + [b] + [c];
    FeedMore(t, [a] + [b], [c], f);
    FeedMore(t, [a], [b], f);
    FeedOne(t, a, f);
    FeedOne(Fed(t, a, f), b, f);
    FeedOne(Fed(Fed(t, a, f), b, f), c, f);
  }

  lemma {:induction false} QuestionRead(t: Term, ds: seq<byte>, f: Iflags)
    requires TermOk(t) && t.parser.state == Question && Digits(ds)
    ensures var u := Feed(t, ds, f);
      u.parser.state == Question && u.view == t.view && u.look == t.look && u.keypad == t.keypad
  {
    if ds != [] {
      QuestionRead(t, ds[..|ds| - 1], f);
    }
  }

  /** "ESC =" and "ESC >" switch the keypad mode, any other character after ESC but a bracket does nothing. */
  lemma KeypadSet(t: Term, c: byte, f: Iflags)
    requires TermOk(t) && t.parser == CLEAR && c != '[' as nat && c != '(' as nat && c != ')' as nat
    ensures Feed(t, [27, c], f) ==
            t.(keypad := if c == '=' as nat then true else if c == '>' as nat then false else t.keypad)
  {
    assert [27, c] == [27] + [c];
    FeedMore(t, [27], [c], f);
    FeedOne(t, 27, f);
    FeedOne(Fed(t, 27, f), c, f);
  }

  /** Every other final character of a control sequence does nothing. */
  lemma Unknown(t: Term, ns: seq<seq<byte>>, c: byte, f: Iflags)
    requires TermOk(t) && t.parser == CLEAR && Numbers(ns) && 1 <= |ns| <= ITEMS && Final(c)
    requires c != 'H' as nat && c != 'J' as nat && c != 'K' as nat && c != 'm' as nat
    ensures Feed(t, Sequence(ns, c), f) == t
  {
    hide Feed, Listed, Items;
    SequenceActs(t, ns, c, f);
  }

  /** Outside sequences: ESC begins one, space and graphic characters are typed in the current look, others ignored. */
  lemma Plain(t: Term, c: byte, f: Iflags)
    requires TermOk(t) && t.parser == CLEAR
    ensures Feed(t, [c], f) ==
            if c == 27 then t.(parser := CLEAR.(state := Esc))
            else if 9 <= c <= 13 || 32 <= c <= 126 then
              var color := if t.look.reverse then Color(t.look.color.bg, t.look.color.fg) else t.look.color;
              t.(view := Typed(t.view, c, color, f))
            else t
  {
    hide Typed;
    FeedOne(t, c, f);
  }

  // ----- What typing means, cell by cell -----

  /** One line down: at the bottom every line takes what was on the one below it, and the last is blank. */
  lemma Downward(v: View, blank: Cell, x: nat, y: nat)
    requires OnScreen(v) && x < 80 && y < 25
    ensures var w := LineDown(v, blank);
      && OnScreen(w) && w.col == v.col && w.row == (if v.row < 24 then v.row + 1 else 24)
      && CellAt(w, x, y) == if v.row < 24 then CellAt(v, x, y) else if y < 24 then CellAt(v, x, y + 1) else blank
  {
    IndexOrder(x, y, 0, 24);
  }

  /** A printed character: its cell, then one place to the right, at the edge to the start of the next line. */
  lemma Printing(v: View, c: byte, color: Color, f: Iflags, x: nat, y: nat)
    requires OnScreen(v) && 32 <= c && x < 80 && y < 25
    ensures var v1 := v.(screen := v.screen[Index(v.col, v.row) := Cell(c, color)]);
      && OnScreen(v1) && CellAt(v1, x, y) == (if x == v.col && y == v.row then Cell(c, color) else CellAt(v, x, y))
      && Typed(v, c, color, f) ==
         if v.col < 79 then v1.(col := v.col + 1) else LineDown(v1.(col := 0), Cell(32, color))
  {
    IndexOrder(x, y, v.col, v.row);
  }

  /** A tab goes to the next multiple of eight, at the last stop to the start of the next line. */
  lemma Tabbing(v: View, color: Color, f: Iflags)
    requires OnScreen(v)
    ensures Typed(v, 9, color, f) ==
            if v.col < 72 then v.(col := (v.col / 8 + 1) * 8) else LineDown(v.(col := 0), Cell(32, color))
  {
  }

  /** New line, vertical tab, form feed and carriage return. */
  lemma Breaking(v: View, c: byte, color: Color, f: Iflags)
    requires OnScreen(v) && 10 <= c <= 13
    ensures Typed(v, c, color, f) ==
            var start, blank := v.(col := 0), Cell(32, color);
            if c == 10 then (if f.inlcr then start else LineDown(start, blank))
            else if c == 13 then (if f.igncr then v else if f.icrnl then LineDown(start, blank) else start)
            else LineDown(v, blank)
  {
  }

  /** A ninth number is one too many: its separator ends the sequence, with no effect. */
  lemma NinthNumber(t: Term, ns: seq<seq<byte>>, f: Iflags)
    requires TermOk(t) && t.parser == CLEAR && Numbers(ns) && |ns| == ITEMS
    ensures Feed(t, [27, '[' as nat] + Listed(ns) + [';' as nat], f) == t
  {
    hide Feed, Listed, Items;
    Opening(t, f);
    NumbersRead(t.(parser := Parser(Csi, Zeros(ITEMS), 0)), ns, f);
    FeedMore(t, [27, '[' as nat], Listed(ns), f);
    FeedMore(t, [27, '[' as nat] + Listed(ns), [';' as nat], f);
    Separated(t.(parser := Reading(ns)), f);
  }

  // ----- Terminals -----

  class Tty {
    var screen: Screen
    var row: nat
    var col: nat
    var color: Color
    var reverse: bool
    var keypad: bool
    var iflags: Iflags
    var state: State
    var items: seq<byte>
    var curr: nat

    predicate Valid()
      reads this
    {
      TermOk(Whole())
    }

    function Whole(): Term
      reads this
    {
      Term(Now(), Looks(), keypad, Parser(state, items, curr))
    }

    function Now(): View
      reads this
    {
      View(screen, row, col)
    }

    function Looks(): Look
      reads this
    {
      Look(color, reverse)
    }

    constructor ()
      ensures Valid() && state == Idle
    {
      screen := seq(CELLS, i => Cell(BLANK, DEFAULT_COLOR));
      row, col, color, reverse, keypad := 0, 0, DEFAULT_COLOR, false, false;
      iflags := Iflags(false, false, true);
      state, items, curr := Idle, Zeros(ITEMS), 0;
    }

    /** tty_reset_state */
    method Reset()
      requires OnScreen(Now())
      modifies `state, `items, `curr
      ensures Valid() && state == Idle
    {
      state, items, curr := Idle, Zeros(ITEMS), 0;
    }

    /** tty_add_digit_char: a number grows by one digit, modulo 256. */
    method AddDigit(c: byte)
      requires |items| == ITEMS && curr < ITEMS && IsDigit(c)
      modifies `items
      ensures items == old(items)[curr := Grown(old(items)[curr], c)]
    {
      items := items[curr := Grown(items[curr], c)];
    }

    /** The loop of vt100_set_sgr. */
    method SetAttributes()
      requires Valid()
      modifies `color, `reverse
      ensures Looks() == Attributes(old(Looks()), items, curr + 1)
    {
      for i := 0 to curr + 1
        invariant Looks() == Attributes(old(Looks()), items, i)
      {
        var l := Attribute(Looks(), items[i]);
        color, reverse := l.color, l.reverse;
      }
    }
  }

  class Console {
    var hw: Screen
    var ttys: seq<Tty>
    var active: nat

    /** The hardware shows the active terminal. */
    ghost predicate Valid()
      reads this, ttys
    {
      && active < |ttys| && hw == ttys[active].screen
      && (forall i, j :: 0 <= i < j < |ttys| ==> ttys[i] != ttys[j])
      && (forall i :: 0 <= i < |ttys| ==> ttys[i].Valid())
    }

    predicate Sized(t: Tty)
      reads this, t
    {
      active < |ttys| && |t.screen| == |hw| == CELLS
    }

    /** The hardware shows terminal t, if it is the active one. */
    predicate Mirrored(t: Tty)
      reads this, t
    {
      Sized(t) && (t == ttys[active] ==> hw == t.screen)
    }

    /** vga_putentry: a cell of the terminal, and of the hardware if the terminal is active. */
    method PutEntry(t: Tty, c: byte, x: nat, y: nat)
      requires Sized(t) && x < WIDTH && y < HEIGHT
      modifies `hw, t`screen
      ensures var cell := Cell(c, Shown(t.Looks()));
        && t.screen == old(t.screen)[Index(x, y) := cell]
        && hw == if t == ttys[active] then old(hw)[Index(x, y) := cell] else old(hw)
    {
      var cell := Cell(c, Shown(t.Looks()));
      t.screen := t.screen[Index(x, y) := cell];
      if t == ttys[active] {
        hw := hw[Index(x, y) := cell];
      }
    }

    /** Blank cells from column lo up to column hi of row y. */
    method BlankRow(t: Tty, lo: nat, hi: nat, y: nat)
      requires Sized(t) && lo <= hi <= WIDTH && y < HEIGHT
      modifies `hw, t`screen
      ensures var cell := Cell(BLANK, Shown(t.Looks()));
        && t.screen == Filled(old(t.screen), Index(lo, y), Index(hi, y), cell)
        && hw == if t == ttys[active] then Filled(old(hw), Index(lo, y), Index(hi, y), cell) else old(hw)
    {
      ghost var cell := Cell(BLANK, Shown(t.Looks()));
      for x := lo to hi
        invariant t.screen == Filled(old(t.screen), Index(lo, y), Index(x, y), cell)
        invariant hw == if t == ttys[active] then Filled(old(hw), Index(lo, y), Index(x, y), cell) else old(hw)
      {
        PutEntry(t, BLANK, x, y);
      }
    }

    /** Blank rows from lo up to hi. */
    method BlankRows(t: Tty, lo: nat, hi: nat)
      requires Mirrored(t) && lo <= hi <= HEIGHT
      modifies `hw, t`screen
      ensures Mirrored(t) && (t != ttys[active] ==> hw == old(hw))
      ensures t.screen == Filled(old(t.screen), Index(0, lo), Index(0, hi), Cell(BLANK, Shown(t.Looks())))
    {
      for y := lo to hi
        invariant Mirrored(t) && (t != ttys[active] ==> hw == old(hw))
        invariant t.screen == Filled(old(t.screen), Index(0, lo), Index(0, y), Cell(BLANK, Shown(t.Looks())))
      {
        BlankRow(t, 0, WIDTH, y);
      }
    }

    /** All lines move up by one; the last one stays. */
    method ShiftUp(t: Tty)
      requires |t.screen| == CELLS
      modifies t`screen
      ensures |t.screen| == CELLS
      ensures forall j :: 0 <= j < CELLS - WIDTH ==> t.screen[j] == old(t.screen)[j + WIDTH]
    {
      ghost var s := t.screen;
      for i := WIDTH to CELLS
        invariant |t.screen| == CELLS
        invariant forall j :: 0 <= j < i - WIDTH ==> t.screen[j] == s[j + WIDTH]
        invariant forall j :: i - WIDTH <= j < CELLS ==> t.screen[j] == s[j]
      {
        t.screen := t.screen[i - WIDTH := t.screen[i]];
      }
    }

    /** The wrap part of vga_display_putchar. */
    method Wrap(t: Tty)
      requires Mirrored(t) && OnScreen(t.Now())
      modifies `hw, t`screen, t`row
      ensures Mirrored(t) && (t != ttys[active] ==> hw == old(hw))
      ensures t.Now() == LineDown(old(t.Now()), Cell(BLANK, Shown(t.Looks())))
    {
      t.row := t.row + 1;
      if t.row == HEIGHT {
        ghost var s := t.screen;
        ShiftUp(t);
        BlankRow(t, 0, WIDTH, HEIGHT - 1);
        t.row := t.row - 1;
        assert t.screen == Scrolled(s, Cell(BLANK, Shown(t.Looks())));
        if t == ttys[active] {
          hw := t.screen;
        }
      }
    }

    /** vga_display_putchar: the flags are those of the active terminal. */
    method PutChar(t: Tty, c: byte)
      requires Mirrored(t) && OnScreen(t.Now())
      modifies `hw, t`screen, t`row, t`col
      ensures Mirrored(t) && (t != ttys[active] ==> hw == old(hw))
      ensures t.Now() == Typed(old(t.Now()), c, Shown(t.Looks()), ttys[active].iflags)
    {
      hide Filled, Scrolled;
      var f := ttys[active].iflags;
      if c == 0 || c == 7 {
        return;
      }
      if c == 10 {
        t.col := 0;
        if !f.inlcr {
          Wrap(t);
        }
        return;
      }
      if c == 11 || c == 12 {
        Wrap(t);
        return;
      }
      if c == 13 {
        if !f.igncr {
          t.col := 0;
          if f.icrnl {
            Wrap(t);
          }
        }
        return;
      }
      if c == 9 {
        t.col := t.col - t.col % 8 + 7;
      } else {
        PutEntry(t, c, t.col, t.row);
      }
      t.col := t.col + 1;
      if t.col == WIDTH {
        t.col := 0;
        Wrap(t);
      }
    }

    /** vt100_clear_screen */
    method ClearScreen(t: Tty)
      requires Mirrored(t) && t.Valid()
      modifies `hw, t`screen, t`state, t`items, t`curr
      ensures Mirrored(t) && t.Valid() && t.state == Idle && (t != ttys[active] ==> hw == old(hw))
      ensures t.screen == Erased(old(t.Now()), old(t.items[0]), Cell(BLANK, Shown(t.Looks())))
    {
      if t.items[0] == 0 {
        BlankRow(t, t.col, WIDTH, t.row);
        BlankRows(t, t.row + 1, HEIGHT);
      } else if t.items[0] == 1 {
        BlankRow(t, 0, t.col, t.row);
        BlankRows(t, 0, t.row);
      } else if t.items[0] == 2 {
        BlankRows(t, 0, HEIGHT);
      }
      if t == ttys[active] {
        hw := t.screen;
      }
      t.Reset();
    }

    /** vt100_clear_line */
    method ClearLine(t: Tty)
      requires Mirrored(t) && t.Valid()
      modifies `hw, t`screen, t`state, t`items, t`curr
      ensures Mirrored(t) && t.Valid() && t.state == Idle && (t != ttys[active] ==> hw == old(hw))
      ensures t.screen == LineErased(old(t.Now()), old(t.items[0]), Cell(BLANK, Shown(t.Looks())))
    {
      if t.items[0] == 0 {
        BlankRow(t, t.col, WIDTH, t.row);
      } else if t.items[0] == 1 {
        BlankRow(t, 0, t.col, t.row);
      } else if t.items[0] == 2 {
        BlankRow(t, 0, WIDTH, t.row);
      }
      if t == ttys[active] {
        hw := t.screen;
      }
      t.Reset();
    }

    /** vt100_set_cursor_pos */
    method SetCursor(t: Tty)
      requires Mirrored(t) && t.Valid()
      modifies t`row, t`col, t`state, t`items, t`curr
      ensures Mirrored(t) && t.Valid() && t.state == Idle
      ensures t.row == Place(old(t.items[0]), HEIGHT) && t.col == Place(old(t.items[1]), WIDTH)
    {
      t.row, t.col := Place(t.items[0], HEIGHT), Place(t.items[1], WIDTH);
      t.Reset();
    }

    /** The control sequences, after "ESC [". */
    method HandleCsi(t: Tty, c: byte)
      requires Mirrored(t) && t.Valid() && t.state == Csi
      modifies `hw, t
      ensures Mirrored(t) && t.Valid() && (t != ttys[active] ==> hw == old(hw)) && t.iflags == old(t.iflags)
      ensures t.Whole() == Fed(old(t.Whole()), c, old(ttys[active].iflags))
    {
      hide Filled, Zeros, Erased, LineErased;
      match c as char
      case '?' => t.state := Question;
      case 'm' =>
        t.SetAttributes();
        t.Reset();
      case 'H' => SetCursor(t);
      case 'J' => ClearScreen(t);
      case 'K' => ClearLine(t);
      case ';' =>
        t.curr := t.curr + 1;
        if t.curr == ITEMS {
          t.Reset();
        }
      case _ =>
        if IsDigit(c) {
          t.AddDigit(c);
        } else {
          t.Reset();
        }
    }

    /** vt100_handle_escaped_char */
    method HandleEscaped(t: Tty, c: byte)
      requires Mirrored(t) && t.Valid() && t.state != Idle
      modifies `hw, t
      ensures Mirrored(t) && t.Valid() && (t != ttys[active] ==> hw == old(hw)) && t.iflags == old(t.iflags)
      ensures t.Whole() == Fed(old(t.Whole()), c, old(ttys[active].iflags))
    {
      hide Filled, Zeros;
      match t.state
      case Esc =>
        if c == '[' as nat {
          t.state := Csi;
        } else if c == '(' as nat {
          t.state := ParenLeft;
        } else if c == ')' as nat {
          t.state := ParenRight;
        } else {
          if c == '=' as nat {
            t.keypad := true;
          } else if c == '>' as nat {
            t.keypad := false;
          }
          t.Reset();
        }
      case Csi => HandleCsi(t, c);
      case Question =>
        if IsDigit(c) {
          t.AddDigit(c);
        } else {
          t.Reset();
        }
      case ParenLeft | ParenRight => t.Reset();
    }

    /** vt100_write_char */
    method WriteChar(t: Tty, c: byte)
      requires Valid() && t in ttys
      modifies `hw, t
      ensures Valid() && (t != ttys[active] ==> hw == old(hw)) && t.iflags == old(t.iflags)
      ensures t.Whole() == Fed(old(t.Whole()), c, old(ttys[active].iflags))
    {
      ghost var k :| 0 <= k < |ttys| && ttys[k] == t;
      if t.state != Idle {
        HandleEscaped(t, c);
      } else if c == 27 {
        t.state := Esc;
      } else if Printed(c) {
        PutChar(t, c);
      }
    }

    /** vga_erase_char */
    method EraseChar(t: Tty)
      requires Valid() && t in ttys
      modifies `hw, t`screen, t`col
      ensures Valid() && (t != ttys[active] ==> hw == old(hw)) && t.row == old(t.row)
      ensures t.col == if old(t.col) > 0 then old(t.col) - 1 else 0
      ensures t.screen ==
              Filled(old(t.screen), Index(t.col, t.row), Index(old(t.col), t.row), Cell(BLANK, Shown(t.Looks())))
    {
      ghost var k :| 0 <= k < |ttys| && ttys[k] == t;
      if t.col > 0 {
        t.col := t.col - 1;
        PutEntry(t, BLANK, t.col, t.row);
      }
    }

    /** vga_erase_line: up to len characters to the left of the cursor. */
    method EraseLine(t: Tty, len: nat)
      requires Valid() && t in ttys
      modifies `hw, t`screen, t`col
      ensures Valid() && (t != ttys[active] ==> hw == old(hw)) && t.row == old(t.row)
      ensures t.col == if len > old(t.col) then 0 else old(t.col) - len
      ensures t.screen ==
              Filled(old(t.screen), Index(t.col, t.row), Index(old(t.col), t.row), Cell(BLANK, Shown(t.Looks())))
    {
      ghost var k :| 0 <= k < |ttys| && ttys[k] == t;
      var n := if len > t.col then t.col else len;
      for i := 0 to n
        invariant Mirrored(t) && OnScreen(t.Now()) && (t != ttys[active] ==> hw == old(hw))
        invariant t.col == old(t.col) - i
        invariant t.screen ==
                Filled(old(t.screen), Index(t.col, t.row), Index(old(t.col), t.row), Cell(BLANK, Shown(t.Looks())))
      {
        t.col := t.col - 1;
        PutEntry(t, BLANK, t.col, t.row);
      }
    }

    /** vga_clear, in the terminal's colour, not reversed. */
    method Clear(t: Tty)
      requires Valid() && t in ttys
      modifies `hw, t`screen
      ensures Valid() && (t != ttys[active] ==> hw == old(hw))
      ensures t.screen == Filled(old(t.screen), 0, CELLS, Cell(BLANK, t.color))
    {
      ghost var k :| 0 <= k < |ttys| && ttys[k] == t;
      for y := 0 to HEIGHT
        invariant hw == old(hw) && t.screen == Filled(old(t.screen), 0, Index(0, y), Cell(BLANK, t.color))
      {
        for x := 0 to WIDTH
          invariant hw == old(hw) && t.screen == Filled(old(t.screen), 0, Index(x, y), Cell(BLANK, t.color))
        {
          t.screen := t.screen[Index(x, y) := Cell(BLANK, t.color)];
        }
      }
      if t == ttys[active] {
        hw := t.screen;
      }
    }

    /** tty_set_active */
    method SetActive(term: nat)
      requires Valid() && term < |ttys|
      modifies `hw, `active
      ensures Valid() && active == term
    {
      active := term;
      hw := ttys[term].screen;
    }

    /** All terminals, their flags, and the active one. */
    ghost function Now(): Machine
      reads this, ttys
    {
      Machine(seq(|ttys|, i requires 0 <= i < |ttys| reads this, ttys => ttys[i].Whole()),
              seq(|ttys|, i requires 0 <= i < |ttys| reads this, ttys => ttys[i].iflags), active)
    }

    lemma NowOk()
      requires Valid()
      ensures MachineOk(Now())
    {
    }

    method Handle(e: Event)
      requires Valid()
      modifies this, ttys
      ensures Valid() && ttys == old(ttys) && MachineOk(old(Now())) && Now() == Happened(old(Now()), e)
    {
      hide Fed, TermOk;
      NowOk();
      match e
      case Write(term, c) =>
        if term < |ttys| {
          WriteChar(ttys[term], c);
          assert forall i :: 0 <= i < |ttys| && i != term ==> ttys[i].Whole() == old(ttys[i].Whole());
        }
      case Switch(term) =>
        if term < |ttys| {
          SetActive(term);
        }
    }

    /**
     Every stream of characters to any terminals, with switches of the active
     terminal in between: each terminal is what its own characters make of it,
     and the hardware shows the active one.
     */
    method Run(events: seq<Event>)
      requires Valid()
      modifies this, ttys
      ensures Valid() && ttys == old(ttys) && MachineOk(old(Now())) && Now() == After(old(Now()), events, |events|)
    {
      hide Happened, MachineOk;
      NowOk();
      for i := 0 to |events|
        invariant Valid() && ttys == old(ttys) && Now() == After(old(Now()), events, i)
      {
        Handle(events[i]);
      }
    }
  }

  // ----- Runs -----

  datatype Event = Write(term: nat, c: byte) | Switch(term: nat)

  datatype Machine = Machine(terms: seq<Term>, flags: seq<Iflags>, active: nat)

  predicate MachineOk(m: Machine)
  {
    m.active < |m.terms| == |m.flags| && forall i :: 0 <= i < |m.terms| ==> TermOk(m.terms[i])
  }

  function Happened(m: Machine, e: Event): (r: Machine)
    requires MachineOk(m)
    ensures MachineOk(r)
  {
    match e
    case Write(term, c) =>
      if term < |m.terms| then m.(terms := m.terms[term := Fed(m.terms[term], c, m.flags[m.active])]) else m
    case Switch(term) => if term < |m.terms| then m.(active := term) else m
  }

  /** The terminals after the first n events. */
  function After(m: Machine, events: seq<Event>, n: nat): (r: Machine)
    requires MachineOk(m) && n <= |events|
    ensures MachineOk(r)
  {
    if n == 0 then m else Happened(After(m, events, n - 1), events[n - 1])
  }

  /** The characters sent to terminal i among the first n events. */
  function Sent(events: seq<Event>, n: nat, i: nat): seq<byte>
    requires n <= |events|
  {
    if n == 0 then []
    else
      Sent(events, n - 1, i) +
      (if events[n - 1].Write? && events[n - 1].term == i then [events[n - 1].c] else [])
  }

  /** With equal flags everywhere, each terminal sees its own stream only, whatever is interleaved or active. */
  lemma {:induction false} OwnStream(m: Machine, events: seq<Event>, n: nat, i: nat, f: Iflags)
    requires MachineOk(m) && n <= |events| && i < |m.terms| && forall j :: 0 <= j < |m.flags| ==> m.flags[j] == f
    ensures After(m, events, n).flags == m.flags && |After(m, events, n).terms| == |m.terms|
    ensures After(m, events, n).terms[i] == Feed(m.terms[i], Sent(events, n, i), f)
  {
    hide Fed;
    if n > 0 {
      OwnStream(m, events, n - 1, i, f);
      var e, s := events[n - 1], Sent(events, n - 1, i);
      if e.Write? && e.term == i {
        FeedMore(m.terms[i], s, [e.c], f);
        FeedOne(Feed(m.terms[i], s, f), e.c, f);
      } else {
        assert s + [] == s;
      }
    }
  }

  /** isspace or isgraph */
  predicate Printed(c: byte)
  {
    c == 32 || 9 <= c <= 13 || 32 < c <= 126
  }
}
