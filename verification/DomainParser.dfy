/**
 The domain parser: recursive descent over tokens, then the conversion of the flat
 prefix-notation list into a tree. The functions give the result of parsing from a position;
 class `Parser` is the machine with a cursor. None stands for a parse error.
 */
module DomainParser {
  import opened Options
  import opened Numbers
  import opened DomainAst
  import opened DomainLexer

  /** An entry of the flat domain list: a logical operator or a condition. */
  datatype Element = OpElem(op: LogicOp) | NodeElem(node: Node)

  /** The operator table. */
  function OperatorNamed(s: string): Option<Operator> {
    if s == "=" then Some(Equal)
    else if s == "!=" then Some(NotEqual)
    else if s == "<" then Some(Less)
    else if s == "<=" then Some(LessEq)
    else if s == ">" then Some(Greater)
    else if s == ">=" then Some(GreaterEq)
    else if s == "in" then Some(In)
    else if s == "not in" then Some(NotIn)
    else if s == "like" then Some(Operator.Like)
    else if s == "not like" then Some(NotLike)
    else if s == "ilike" then Some(ILike)
    else if s == "not ilike" then Some(NotILike)
    else if s == "=like" then Some(EqLike)
    else if s == "=ilike" then Some(EqILike)
    else if s == "child_of" then Some(ChildOf)
    else if s == "parent_of" then Some(ParentOf)
    else None
  }

  // ----- Parsing from a position -----

  function Peek(toks: seq<Token>, pos: nat): Kind {
    if pos < |toks| then toks[pos].kind else EndOfInput
  }

  function PastComma(toks: seq<Token>, pos: nat): nat {
    if Peek(toks, pos) == Comma then pos + 1 else pos
  }

  /** A value without brackets, from its token alone. */
  function AtomOf(tok: Token): Option<Literal> {
    match tok.kind
    case StringKind => Some(StringLit(tok.text))
    case IntKind => (match ParseInt(tok.text) case None => None case Some(n) => Some(IntLit(n)))
    case FloatKind => (match ParseFloat(tok.text) case None => None case Some(r) => Some(FloatLit(r)))
    case TrueKind => Some(BoolLit(true))
    case FalseKind => Some(BoolLit(false))
    case NoneKind => Some(NoneLit)
    case RefKind => Some(RefLit(tok.text))
    case _ => None
  }

  /**
   The loop both list parsers share: the entries read so far plus the rest up to the closer, and
   the position after it. Commas are optional between entries and allowed before the closer. The
   entry readers always move forward; the last test states so for termination.
   */
  function Entries<T>(toks: seq<Token>, pos: nat, closer: Kind, entry: nat -> Reading<T>, read: seq<T>): Reading<seq<T>>
    decreases if pos < |toks| then |toks| - pos else 0
  {
    var kind := Peek(toks, pos);
    if kind == EndOfInput then Fail
    else if kind == closer then Read(read, pos + 1)
    else
      var at := if read == [] then pos else PastComma(toks, pos);
      if Peek(toks, at) == closer then Read(read, at + 1)
      else
        match entry(at)
        case Fail => Fail
        case Read(v, e) => if e <= pos then Fail else Entries(toks, e, closer, entry, read + [v])
  }

  function Value(toks: seq<Token>, pos: nat): (r: Reading<Literal>)
    decreases if pos < |toks| then |toks| - pos else 0, 1
  {
    if pos >= |toks| then Fail
    else if toks[pos].kind == LBracket then
      match Entries(toks, pos + 1, RBracket, ItemReader(toks, pos), [])
      case Fail => Fail
      case Read(items, e) => Read(ListLit(items), e)
    else if toks[pos].kind == LParen then
      match Entries(toks, pos + 1, RParen, ItemReader(toks, pos), [])
      case Fail => Fail
      case Read(items, e) => Read(TupleLit(items), e)
    else
      match AtomOf(toks[pos])
      case None => Fail
      case Some(lit) => Read(lit, pos + 1)
  }

  /** Reads the values of a list that opens at a position. */
  function ItemReader(toks: seq<Token>, open: nat): nat -> Reading<Literal>
    decreases if open < |toks| then |toks| - open else 0, 0
  {
    (p: nat) => if open < p && open < |toks| then Value(toks, p) else Fail
  }

  function Cond(toks: seq<Token>, pos: nat): Reading<Condition> {
    if Peek(toks, pos) != LParen || Peek(toks, pos + 1) != StringKind then Fail
    else
      var opAt := PastComma(toks, pos + 2);
      if Peek(toks, opAt) != StringKind then Fail
      else
        match OperatorNamed(toks[opAt].text)
        case None => Fail
        case Some(op) =>
          match Value(toks, PastComma(toks, opAt + 1))
          case Fail => Fail
          case Read(v, e) =>
            if Peek(toks, e) != RParen then Fail
            else Read(Condition(toks[pos + 1].text, op, v), e + 1)
  }

  function ElementAt(toks: seq<Token>, pos: nat): Reading<Element> {
    match Peek(toks, pos)
    case AndKind => Read(OpElem(And), pos + 1)
    case OrKind => Read(OpElem(Or), pos + 1)
    case NotKind => Read(OpElem(Not), pos + 1)
    case LParen => (match Cond(toks, pos) case Fail => Fail case Read(c, e) => Read(NodeElem(Leaf(c)), e))
    case _ => Fail
  }

  function ElementReader(toks: seq<Token>): nat -> Reading<Element> { (p: nat) => ElementAt(toks, p) }

  /** The element list between the outer brackets; tokens behind the closing bracket are not looked at. */
  function DomainElements(toks: seq<Token>): Option<seq<Element>> {
    if Peek(toks, 0) != LBracket then None
    else
      match Entries(toks, 1, RBracket, ElementReader(toks), [])
      case Fail => None
      case Read(elems, _) => Some(elems)
  }

  // ----- Every reader moves forward -----

  lemma {:induction false} EntriesForward<T>(toks: seq<Token>, pos: nat, closer: Kind, entry: nat -> Reading<T>, read: seq<T>)
    ensures var r := Entries(toks, pos, closer, entry, read); r.Read? ==> pos < r.next <= |toks| + 1
    ensures var r := Entries(toks, pos, closer, entry, read); r.Read? && closer != EndOfInput ==> r.next <= |toks|
    decreases if pos < |toks| then |toks| - pos else 0
  {
    var at := if read == [] then pos else PastComma(toks, pos);
    if pos < |toks| && entry(at).Read? && pos < entry(at).next {
      EntriesForward(toks, entry(at).next, closer, entry, read + [entry(at).value]);
    }
  }

  lemma {:induction false} ValueForward(toks: seq<Token>, pos: nat)
    ensures var r := Value(toks, pos); r.Read? ==> pos < r.next <= |toks|
  {
    if pos < |toks| {
      EntriesForward(toks, pos + 1, RBracket, ItemReader(toks, pos), []);
      EntriesForward(toks, pos + 1, RParen, ItemReader(toks, pos), []);
    }
  }

  lemma {:induction false} CondForward(toks: seq<Token>, pos: nat)
    ensures var r := Cond(toks, pos); r.Read? ==> pos < r.next <= |toks|
  {
    var opAt := PastComma(toks, pos + 2);
    ValueForward(toks, PastComma(toks, opAt + 1));
  }

  lemma {:induction false} ElementForward(toks: seq<Token>, pos: nat)
    ensures var r := ElementAt(toks, pos); r.Read? ==> pos < r.next <= |toks|
  {
    CondForward(toks, pos);
  }

  // ----- From the flat list to a tree -----

  function Operands(elems: seq<Element>): nat {
    if elems == [] then 0
    else Operands(elems[..|elems| - 1]) + if elems[|elems| - 1].NodeElem? then 1 else 0
  }

  predicate IsBinary(el: Element) { el.OpElem? && (el.op == And || el.op == Or) }

  function BinaryOps(elems: seq<Element>): nat {
    if elems == [] then 0
    else BinaryOps(elems[..|elems| - 1]) + if IsBinary(elems[|elems| - 1]) then 1 else 0
  }

  function Ands(k: nat): seq<Element> { seq(k, _ => OpElem(And)) }

  function WithImplicitAnds(elems: seq<Element>): seq<Element> {
    var needed := Operands(elems) - BinaryOps(elems) - 1;
    if |elems| <= 1 || needed <= 0 then elems else Ands(needed) + elems
  }

  /** Reads one complete operand from a position: the tree and the position after it. */
  function Consume(elems: seq<Element>, idx: nat): (r: Reading<Node>)
    requires idx <= |elems|
    ensures r.Read? ==> idx < r.next <= |elems|
    decreases |elems| - idx
  {
    if idx == |elems| then Fail
    else
      match elems[idx]
      case NodeElem(n) => Read(n, idx + 1)
      case OpElem(op) =>
        match Consume(elems, idx + 1)
        case Fail => Fail
        case Read(left, mid) =>
          if op == Not then Read(BoolOp(Not, [left]), mid)
          else
            match Consume(elems, mid)
            case Fail => Fail
            case Read(right, e) => Read(BoolOp(op, [left, right]), e)
  }

  function BuildTree(elems: seq<Element>): Option<Node> {
    var expanded := WithImplicitAnds(elems);
    match Consume(expanded, 0)
    case Fail => None
    case Read(n, e) => if e < |expanded| then None else Some(n)
  }

  function Tree(elems: seq<Element>): Option<Node> {
    if elems == [] then Some(MatchAll) else BuildTree(elems)
  }

  /** The whole parser: domain text to syntax tree. */
  function Parse(src: string): Option<Node> {
    match Tokens(src)
    case None => None
    case Some(toks) =>
      match DomainElements(toks)
      case None => None
      case Some(elems) => Tree(elems)
  }

  // ----- The machine -----

  /** The counting passes and the prefixing loop of the implicit conjunction. */
  method InsertImplicitAnd(elems: seq<Element>) returns (r: seq<Element>)
    ensures r == WithImplicitAnds(elems)
  {
    if |elems| <= 1 {
      return elems;
    }
    var operands, binaryOps := 0, 0;
    for i := 0 to |elems|
      invariant operands == Operands(elems[..i]) && binaryOps == BinaryOps(elems[..i])
    {
      assert elems[..i + 1][..i] == elems[..i];
      if elems[i].NodeElem? { operands := operands + 1; }
      if IsBinary(elems[i]) { binaryOps := binaryOps + 1; }
    }
    assert elems[..|elems|] == elems;
    var needed := operands - binaryOps - 1;
    if needed <= 0 {
      return elems;
    }
    r := [];
    for i := 0 to needed
      invariant r == Ands(i)
    {
      r := r + [OpElem(And)];
    }
    r := r + elems;
  }

  class Parser {
    const tokens: seq<Token>
    var pos: nat

    ghost predicate Valid()
      reads this
    {
      pos <= |tokens|
    }

    constructor (tokens: seq<Token>)
      ensures Valid() && this.tokens == tokens && pos == 0
    {
      this.tokens := tokens;
      pos := 0;
    }

    method ConsumeIf(kind: Kind) returns (found: bool)
      requires Valid() && kind != EndOfInput
      modifies this
      ensures Valid() && found == (Peek(tokens, old(pos)) == kind)
      ensures pos == old(pos) + if found then 1 else 0
    {
      found := Peek(tokens, pos) == kind;
      if found {
        pos := pos + 1;
      }
    }

    method ParseValue() returns (r: Option<Literal>)
      requires Valid()
      modifies this
      ensures Valid() && pos >= old(pos)
      ensures match Value(tokens, old(pos))
              case Fail => r == None
              case Read(v, e) => r == Some(v) && pos == e
      decreases |tokens| - pos, 1
    {
      hide Entries, AtomOf;
      ValueForward(tokens, pos);
      var kind := Peek(tokens, pos);
      if kind == LBracket {
        var items := ParseItems(RBracket);
        r := if items.None? then None else Some(ListLit(items.value));
      } else if kind == LParen {
        var items := ParseItems(RParen);
        r := if items.None? then None else Some(TupleLit(items.value));
      } else if pos < |tokens| {
        r := AtomOf(tokens[pos]);
        if r.Some? {
          pos := pos + 1;
        }
      } else {
        r := None;
      }
    }

    /** Reads the values of a list or tuple whose opening bracket is at the cursor. */
    method ParseItems(closer: Kind) returns (r: Option<seq<Literal>>)
      requires Valid() && pos < |tokens| && closer != EndOfInput
      modifies this
      ensures Valid() && pos >= old(pos)
      ensures match Entries(tokens, old(pos) + 1, closer, ItemReader(tokens, old(pos)), [])
              case Fail => r == None
              case Read(items, e) => r == Some(items) && pos == e
      decreases |tokens| - pos, 0
    {
      hide Value, AtomOf;
      pos := pos + 1;
      ghost var entry := ItemReader(tokens, old(pos));
      ghost var goal := Entries(tokens, pos, closer, entry, []);
      var items: seq<Literal> := [];
      while Peek(tokens, pos) != closer && Peek(tokens, pos) != EndOfInput
        invariant Valid() && old(pos) < pos
        invariant goal == Entries(tokens, pos, closer, entry, items)
        decreases |tokens| - pos
      {
        ghost var here := pos;
        if items != [] {
          var _ := ConsumeIf(Comma);
        }
        if Peek(tokens, pos) == closer {
          assert Entries(tokens, here, closer, entry, items) == Read(items, pos + 1);
          break;
        }
        ValueForward(tokens, pos);
        assert entry(pos) == Value(tokens, pos);
        var v := ParseValue();
        if v.None? {
          return None;
        }
        items := items + [v.value];
      }
      var closed := ConsumeIf(closer);
      r := if closed then Some(items) else None;
    }

    method ParseCondition() returns (r: Option<Condition>)
      requires Valid()
      modifies this
      ensures Valid() && pos >= old(pos)
      ensures match Cond(tokens, old(pos))
              case Fail => r == None
              case Read(c, e) => r == Some(c) && pos == e
    {
      hide Value, OperatorNamed;
      var open := ConsumeIf(LParen);
      if !open || Peek(tokens, pos) != StringKind {
        return None;
      }
      var field := tokens[pos].text;
      pos := pos + 1;
      var _ := ConsumeIf(Comma);
      if Peek(tokens, pos) != StringKind {
        return None;
      }
      var op := OperatorNamed(tokens[pos].text);
      if op.None? {
        return None;
      }
      pos := pos + 1;
      var _ := ConsumeIf(Comma);
      var v := ParseValue();
      if v.None? {
        return None;
      }
      var closed := ConsumeIf(RParen);
      r := if closed then Some(Condition(field, op.value, v.value)) else None;
    }

    method ParseElement() returns (r: Option<Element>)
      requires Valid()
      modifies this
      ensures Valid() && pos >= old(pos)
      ensures match ElementAt(tokens, old(pos))
              case Fail => r == None
              case Read(el, e) => r == Some(el) && pos == e
    {
      match Peek(tokens, pos) {
        case AndKind => pos := pos + 1; r := Some(OpElem(And));
        case OrKind => pos := pos + 1; r := Some(OpElem(Or));
        case NotKind => pos := pos + 1; r := Some(OpElem(Not));
        case LParen =>
          var c := ParseCondition();
          r := if c.None? then None else Some(NodeElem(Leaf(c.value)));
        case _ => r := None;
      }
    }

    /** Collects operators and conditions up to the closing bracket. */
    method ParseElements() returns (r: Option<seq<Element>>)
      requires Valid()
      modifies this
      ensures match Entries(tokens, old(pos), RBracket, ElementReader(tokens), [])
              case Fail => r == None
              case Read(elems, _) => r == Some(elems)
    {
      hide ElementAt;
      ghost var entry := ElementReader(tokens);
      ghost var goal := Entries(tokens, pos, RBracket, entry, []);
      var elements: seq<Element> := [];
      while Peek(tokens, pos) != RBracket && Peek(tokens, pos) != EndOfInput
        invariant Valid()
        invariant goal == Entries(tokens, pos, RBracket, entry, elements)
        decreases |tokens| - pos
      {
        ghost var here := pos;
        if elements != [] {
          var _ := ConsumeIf(Comma);
        }
        if Peek(tokens, pos) == RBracket {
          assert Entries(tokens, here, RBracket, entry, elements) == Read(elements, pos + 1);
          break;
        }
        ElementForward(tokens, pos);
        assert entry(pos) == ElementAt(tokens, pos);
        var el := ParseElement();
        if el.None? {
          return None;
        }
        elements := elements + [el.value];
      }
      var closed := ConsumeIf(RBracket);
      r := if closed then Some(elements) else None;
    }

    /** The top level: brackets around the elements, then the tree. */
    method ParseDomain() returns (r: Option<Node>)
      requires Valid() && pos == 0
      modifies this
      ensures r == match DomainElements(tokens)
                   case None => None
                   case Some(elems) => Tree(elems)
    {
      var open := ConsumeIf(LBracket);
      if !open {
        return None;
      }
      var elements := ParseElements();
      if elements.None? {
        return None;
      }
      if elements.value == [] {
        return Some(MatchAll);
      }
      var expanded := InsertImplicitAnd(elements.value);
      var consumed := Consume(expanded, 0);
      r := if consumed.Fail? || consumed.next < |expanded| then None else Some(consumed.value);
    }
  }

  method ParseText(src: string) returns (r: Option<Node>)
    ensures r == Parse(src)
  {
    var toks := Lex(src);
    if toks.None? {
      return None;
    }
    var p := new Parser(toks.value);
    r := p.ParseDomain();
  }
}
