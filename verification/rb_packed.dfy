/** The word rb_parent_color of rbtree.h, which holds a parent address and a colour.

    The tree proofs keep the two apart; here any sequence of writes to the packed words is
    shown to do what the same writes do to separate fields. */
module RbPacked {
  import opened RbSpec

  type Word = nat

  /** Bitwise or. */
  function Or(a: Word, b: Word): Word {
    if a == 0 then b else 2 * Or(a / 2, b / 2) + (if a % 2 == 1 || b % 2 == 1 then 1 else 0)
  }

  /** Node addresses are multiples of the size of a long, so their low bits are free. */
  predicate Aligned(p: Word) {
    p % 4 == 0
  }

  // ---- the macros, with masks as remainders ----

  function Parent(w: Word): Word {
    w - w % 4
  }

  function ColorBit(w: Word): Word {
    w % 2
  }

  function WithParent(w: Word, p: Word): Word {
    Or(w % 4, p)
  }

  function WithColor(w: Word, c: Word): Word {
    Or(w - w % 2, c)
  }

  function Reddened(w: Word): Word {
    w - w % 2
  }

  function Blackened(w: Word): Word {
    Or(w, 1)
  }

  // ---- what they mean ----

  function Bit(c: Color): Word {
    if c.Red? then 0 else 1
  }

  function Pack(p: Word, c: Color): Word {
    p + Bit(c)
  }

  lemma PackReads(p: Word, c: Color)
    requires Aligned(p)
    ensures Parent(Pack(p, c)) == p && ColorBit(Pack(p, c)) == Bit(c)
  {
    LowBits(p / 4, Bit(c));
  }

  lemma LowTwo(k: nat, b: nat)
    requires b <= 1
    ensures (4 * k + b) % 4 == b
  {
  }

  lemma LowOne(k: nat, b: nat)
    requires b <= 1
    ensures (2 * k + b) % 2 == b
  {
  }

  lemma LowBits(k: nat, b: nat)
    requires b <= 1
    ensures (4 * k + b) % 4 == b && (4 * k + b) % 2 == b
  {
    LowTwo(k, b);
    LowOne(2 * k, b);
    assert 4 * k + b == 2 * (2 * k) + b;
  }

  lemma PackInjective(p: Word, c: Color, q: Word, d: Color)
    requires Aligned(p) && Aligned(q) && Pack(p, c) == Pack(q, d)
    ensures p == q && c == d
  {
    PackReads(p, c);
    PackReads(q, d);
  }

  /** Or with bits that are free is addition. */
  lemma {:induction false} OrZero(a: Word)
    ensures Or(a, 0) == a
  {
    if a == 0 {
    } else {
      OrZero(a / 2);
    }
  }

  lemma OrOne(a: Word)
    ensures Or(a, 1) == a - a % 2 + 1
  {
    OrZero(a / 2);
  }

  lemma PackParent(p: Word, c: Color, q: Word)
    requires Aligned(p) && Aligned(q)
    ensures WithParent(Pack(p, c), q) == Pack(q, c)
  {
    PackReads(p, c);
    LowOr(Bit(c), q);
    hide Or;
    assert Pack(p, c) % 4 == Bit(c) by { LowBits(p / 4, Bit(c)); }
  }

  lemma LowOr(b: Word, q: Word)
    requires b <= 1 && q % 4 == 0
    ensures Or(b, q) == q + b
  {
    assert Or(0, q / 2) == q / 2;
  }

  lemma PackColor(p: Word, c: Color, d: Color)
    requires Aligned(p)
    ensures WithColor(Pack(p, c), Bit(d)) == Pack(p, d)
  {
    OrZero(p);
    OrOne(p);
    hide Or;
    PackReads(p, c);
    assert Pack(p, c) % 2 == Bit(c) && p % 2 == 0 by { LowBits(p / 4, Bit(c)); LowBits(p / 4, 0); }
  }

  lemma PackRed(p: Word, c: Color)
    requires Aligned(p)
    ensures Reddened(Pack(p, c)) == p && Pack(p, Red) == p
  {
    PackReads(p, c);
    hide Bit;
    assert Pack(p, c) % 2 == Bit(c);
  }

  lemma PackBlack(p: Word, c: Color)
    requires Aligned(p)
    ensures Blackened(Pack(p, c)) == Pack(p, Black)
  {
    OrOne(Pack(p, c));
    PackReads(p, c);
    hide Or;
    assert Pack(p, c) % 2 == Bit(c);
  }

  // ---- sequences of writes ----

  /** The statements that touch the word of the node at address `n`; zero is the null pointer. */
  datatype Write =
    | SetParent(n: Word, p: Word)
    | SetColor(n: Word, c: Color)
    | SetRed(n: Word)
    | SetBlack(n: Word)
    | Copy(n: Word, from: Word)   // the word of another node
    | CopyColor(n: Word, from: Word)   // the colour of another node
    | LinkNode(n: Word, p: Word)   // a new red node below p
    | InitNode(n: Word)

  predicate Legal(w: Write, known: set<Word>) {
    && Aligned(w.n) && w.n in known
    && (w.SetParent? || w.LinkNode? ==> Aligned(w.p))
    && (w.Copy? || w.CopyColor? ==> w.from in known)
  }

  function NewWord(h: map<Word, Word>, w: Write): Word
    requires Legal(w, h.Keys)
  {
    match w
    case SetParent(n, p) => WithParent(h[n], p)
    case SetColor(n, c) => WithColor(h[n], Bit(c))
    case SetRed(n) => Reddened(h[n])
    case SetBlack(n) => Blackened(h[n])
    case Copy(n, from) => h[from]
    case CopyColor(n, from) => WithColor(h[n], ColorBit(h[from]))
    case LinkNode(n, p) => p
    case InitNode(n) => WithParent(0, n)
  }

  function PackedStep(h: map<Word, Word>, w: Write): map<Word, Word>
    requires Legal(w, h.Keys)
  {
    h[w.n := NewWord(h, w)]
  }

  datatype Plain = Plain(parent: Word, color: Color)

  function NewPlain(h: map<Word, Plain>, w: Write): Plain
    requires Legal(w, h.Keys)
  {
    match w
    case SetParent(n, p) => h[n].(parent := p)
    case SetColor(n, c) => h[n].(color := c)
    case SetRed(n) => h[n].(color := Red)
    case SetBlack(n) => h[n].(color := Black)
    case Copy(n, from) => h[from]
    case CopyColor(n, from) => h[n].(color := h[from].color)
    case LinkNode(n, p) => Plain(p, Red)
    case InitNode(n) => Plain(n, Red)
  }

  function PlainStep(h: map<Word, Plain>, w: Write): map<Word, Plain>
    requires Legal(w, h.Keys)
  {
    h[w.n := NewPlain(h, w)]
  }

  predicate Packed(w: Word, r: Plain) {
    Aligned(r.parent) && w == Pack(r.parent, r.color)
  }

  predicate Encodes(h: map<Word, Word>, g: map<Word, Plain>) {
    h.Keys == g.Keys && forall n :: n in h ==> Packed(h[n], g[n])
  }

  lemma StepEncodes(h: map<Word, Word>, g: map<Word, Plain>, w: Write)
    requires Encodes(h, g) && Legal(w, h.Keys)
    ensures Encodes(PackedStep(h, w), PlainStep(g, w))
  {
    hide Packed, NewWord, NewPlain;
    KnownNode(w, h.Keys);
    hide Legal;
    WordEncodes(h, g, w);
  }

  lemma KnownNode(w: Write, known: set<Word>)
    requires Legal(w, known)
    ensures w.n in known
  {
  }

  lemma WordEncodes(h: map<Word, Word>, g: map<Word, Plain>, w: Write)
    requires Encodes(h, g) && Legal(w, h.Keys)
    ensures Packed(NewWord(h, w), NewPlain(g, w))
  {
    hide Pack, WithParent, WithColor, Reddened, Blackened, ColorBit, Bit;
    var r := g[w.n];
    match w {
      case SetParent(n, p) => PackParent(r.parent, r.color, p);
      case SetColor(n, c) => PackColor(r.parent, r.color, c);
      case SetRed(n) => PackRed(r.parent, r.color);
      case SetBlack(n) => PackBlack(r.parent, r.color);
      case Copy(n, from) =>
      case CopyColor(n, from) =>
        PackReads(g[from].parent, g[from].color);
        PackColor(r.parent, r.color, g[from].color);
      case LinkNode(n, p) => PackRed(p, Red);
      case InitNode(n) => InitPacks(n);
    }
  }

  lemma InitPacks(n: Word)
    requires Aligned(n)
    ensures WithParent(0, n) == Pack(n, Red)
  {
  }

  predicate AllLegal(ws: seq<Write>, known: set<Word>) {
    forall i :: 0 <= i < |ws| ==> Legal(ws[i], known)
  }

  function PackedRun(h: map<Word, Word>, ws: seq<Write>): map<Word, Word>
    requires AllLegal(ws, h.Keys)
    decreases |ws|
  {
    if ws == [] then h else PackedRun(PackedStep(h, ws[0]), ws[1..])
  }

  function PlainRun(h: map<Word, Plain>, ws: seq<Write>): map<Word, Plain>
    requires AllLegal(ws, h.Keys)
    decreases |ws|
  {
    if ws == [] then h else PlainRun(PlainStep(h, ws[0]), ws[1..])
  }

  lemma WordReads(w: Word, r: Plain)
    requires Packed(w, r)
    ensures Parent(w) == r.parent && ColorBit(w) == Bit(r.color)
  {
    PackReads(r.parent, r.color);
  }

  /** After any writes, every parent and colour read from the packed words is the one the separate fields hold. */
  lemma {:induction false} PackedRefines(h: map<Word, Word>, g: map<Word, Plain>, ws: seq<Write>)
    requires Encodes(h, g) && AllLegal(ws, h.Keys)
    ensures Encodes(PackedRun(h, ws), PlainRun(g, ws))
    ensures forall n :: n in PackedRun(h, ws) ==>
      && Parent(PackedRun(h, ws)[n]) == PlainRun(g, ws)[n].parent
      && ColorBit(PackedRun(h, ws)[n]) == Bit(PlainRun(g, ws)[n].color)
    decreases |ws|
  {
    hide Parent, ColorBit, Pack, Legal, NewWord, NewPlain, Packed;
    if ws == [] {
      forall n | n in h
        ensures Parent(h[n]) == g[n].parent && ColorBit(h[n]) == Bit(g[n].color)
      {
        WordReads(h[n], g[n]);
      }
    } else {
      KnownNode(ws[0], h.Keys);
      assert PackedStep(h, ws[0]).Keys == h.Keys;
      StepEncodes(h, g, ws[0]);
      PackedRefines(PackedStep(h, ws[0]), PlainStep(g, ws[0]), ws[1..]);
    }
  }

  /** RB_EMPTY_NODE holds after rb_init_node and is what separate fields would say. */
  lemma EmptyNode(n: Word, p: Word, c: Color)
    requires Aligned(n) && Aligned(p)
    ensures Parent(WithParent(0, n)) == n
    ensures Parent(Pack(p, c)) == n <==> p == n
  {
    InitPacks(n);
    PackReads(n, Red);
    hide WithParent, Pack, Parent;
    PackReads(p, c);
  }
}
