/** Filter expressions of analysis/trace_filter.hpp: parsing, shorthand expansion and evaluation. */
module TraceFilter {
  import opened Common

  // The text is modelled after lexing. A base expression, which the program recognises with a regular
  // expression, is one token that carries its field name, its operator and the numbers read from its value.

  // The fields of a trace record that can be tested.
  datatype Field =
    | TIME | NODE | NODE_TYPE | INTF | QIDX | QLEN | SIP | DIP | SIZE | L3_PROT | EVENT | ECN
    | DATA_SPORT | DATA_DPORT | DATA_SEQ | ACK_SPORT | ACK_DPORT | ACK_FLAGS | QP_SPORT | QP_DPORT

  datatype Op = EQ | GT | GE | LT | LE | NE

  datatype Name = Plain(field: Field) | Flow | BiFlow | RFlow | Queue | UnknownName

  // number is what "%li" reads from the value, parts what a list format of a shorthand reads.
  datatype Value = Value(number: nat, parts: seq<nat>)

  datatype Base = Base(name: Name, op: Op, value: Value)

  datatype Token = Space | LParen | RParen | Amp | Bar | Word(base: Base) | Other

  // ----- Filter trees -----

  datatype Node = Test(field: Field, op: Op, value: nat) | And(left: Node, right: Node) | Or(left: Node, right: Node)

  // A trace record, field by field.
  type Trace = Field -> nat

  // The value of a test is kept in a variable of the field's own width.
  function Range(f: Field): nat {
    match f
    case TIME => 0x1_0000_0000_0000_0000
    case QLEN => 0x1_0000_0000
    case SIP => 0x1_0000_0000
    case DIP => 0x1_0000_0000
    case DATA_SEQ => 0x1_0000_0000
    case NODE => 0x1_0000
    case SIZE => 0x1_0000
    case DATA_SPORT => 0x1_0000
    case DATA_DPORT => 0x1_0000
    case ACK_SPORT => 0x1_0000
    case ACK_DPORT => 0x1_0000
    case QP_SPORT => 0x1_0000
    case QP_DPORT => 0x1_0000
    case _ => 0x100
  }

  predicate Compare(op: Op, a: nat, b: nat) {
    match op
    case EQ => a == b
    case GT => a > b
    case GE => a >= b
    case LT => a < b
    case LE => a <= b
    case NE => a != b
  }

  predicate Passes(n: Node, tr: Trace) {
    match n
    case Test(f, op, v) => Compare(op, tr(f), v)
    case And(l, r) => Passes(l, tr) && Passes(r, tr)
    case Or(l, r) => Passes(l, tr) || Passes(r, tr)
  }

  // ----- Surface expressions -----

  // What is written: units joined by & and |, all of one precedence and grouping to the right.
  datatype Unit = Leaf(base: Base) | Group(expr: Expr)
  datatype Expr = One(unit: Unit) | Chain(unit: Unit, isAnd: bool, rest: Expr)

  function UnitText(u: Unit): seq<Token> {
    match u
    case Leaf(b) => [Word(b)]
    case Group(e) => [LParen] + Text(e) + [RParen]
  }

  function Text(e: Expr): seq<Token> {
    match e
    case One(u) => UnitText(u)
    case Chain(u, isAnd, rest) => UnitText(u) + [if isAnd then Amp else Bar] + Text(rest)
  }

  function Join(isAnd: bool, left: Node, right: Node): Node {
    if isAnd then And(left, right) else Or(left, right)
  }

  // ----- Shorthands -----

  function Is(f: Field, v: nat): Unit {
    Leaf(Base(Plain(f), EQ, Value(v, [v])))
  }

  function All3(a: Unit, b: Unit, c: Unit): Expr {
    Chain(a, true, Chain(b, true, One(c)))
  }

  // sip=..&dip=..&((l3Prot=17&data.sport=..&data.dport=..)|((l3Prot=0xFC|l3Prot=0xFD)&ack.sport=..&ack.dport=..)
  // |(l3Prot=0x0&qp.sport=..&qp.dport=..))
  function OneWay(sip: nat, dip: nat, sport: nat, dport: nat): Expr {
    All3(Is(SIP, sip), Is(DIP, dip), Group(OneKind(sport, dport)))
  }

  function OneKind(sport: nat, dport: nat): Expr {
    Chain(Group(DataKind(sport, dport)), false,
          Chain(Group(AckKind(sport, dport)), false, One(Group(QpKind(sport, dport)))))
  }

  function DataKind(sport: nat, dport: nat): Expr {
    All3(Is(L3_PROT, 17), Is(DATA_SPORT, sport), Is(DATA_DPORT, dport))
  }

  function AckKind(sport: nat, dport: nat): Expr {
    All3(Group(Chain(Is(L3_PROT, 0xFC), false, One(Is(L3_PROT, 0xFD)))), Is(ACK_SPORT, sport), Is(ACK_DPORT, dport))
  }

  function QpKind(sport: nat, dport: nat): Expr {
    All3(Is(L3_PROT, 0), Is(QP_SPORT, sport), Is(QP_DPORT, dport))
  }

  // The text that parse_shorthand prints and parses in place of a shorthand, if it does.
  // Addresses are read as 32-bit and ports as 16-bit numbers.
  function Expansion(b: Base): Option<Expr> {
    if b.op != EQ then None
    else match b.name
      case Queue =>
        if |b.value.parts| < 3 then None
        else Some(All3(Is(NODE, b.value.parts[0] % 0x1_0000), Is(INTF, b.value.parts[1] % 0x100),
                       Is(QIDX, b.value.parts[2] % 0x100)))
      case Plain(_) => None
      case UnknownName => None
      case _ =>
        if |b.value.parts| < 4 then None
        else
          var sip, dip := b.value.parts[0] % 0x1_0000_0000, b.value.parts[1] % 0x1_0000_0000;
          var sport, dport := b.value.parts[2] % 0x1_0000, b.value.parts[3] % 0x1_0000;
          match b.name
          case Flow => Some(OneWay(sip, dip, sport, dport))
          case RFlow => Some(OneWay(dip, sip, dport, sport))
          case _ => Some(Chain(Group(OneWay(sip, dip, sport, dport)), false,
                               One(Group(OneWay(dip, sip, dport, sport)))))
  }

  // Shorthands in a text. Each expands into a text without any.
  function Shorthands(s: seq<Token>): nat {
    if s == [] then 0
    else (if s[0].Word? && !s[0].base.name.Plain? then 1 else 0) + Shorthands(s[1..])
  }

  lemma {:induction false} ShorthandsConcat(a: seq<Token>, b: seq<Token>)
    ensures Shorthands(a + b) == Shorthands(a) + Shorthands(b)
  {
    if a == [] {
      assert a + b == b;
    } else {
      assert (a + b)[1..] == a[1..] + b;
      ShorthandsConcat(a[1..], b);
    }
  }

  predicate PlainExpr(e: Expr) {
    match e
    case One(u) => PlainUnit(u)
    case Chain(u, _, rest) => PlainUnit(u) && PlainExpr(rest)
  }

  predicate PlainUnit(u: Unit) {
    match u
    case Leaf(b) => b.name.Plain?
    case Group(e) => PlainExpr(e)
  }

  lemma {:induction false} PlainHasNoShorthands(e: Expr)
    requires PlainExpr(e)
    ensures Shorthands(Text(e)) == 0
    decreases e, 1
  {
    match e
    case One(u) => PlainUnitHasNone(u);
    case Chain(u, isAnd, rest) =>
      PlainUnitHasNone(u);
      PlainHasNoShorthands(rest);
      ShorthandsConcat(UnitText(u) + [if isAnd then Amp else Bar], Text(rest));
      ShorthandsConcat(UnitText(u), [if isAnd then Amp else Bar]);
  }

  lemma {:induction false} PlainUnitHasNone(u: Unit)
    requires PlainUnit(u)
    ensures Shorthands(UnitText(u)) == 0
    decreases u, 0
  {
    match u
    case Leaf(_) =>
    case Group(e) =>
      PlainHasNoShorthands(e);
      ShorthandsConcat([LParen] + Text(e), [RParen]);
      ShorthandsConcat([LParen], Text(e));
  }

  lemma All3IsPlain(a: Unit, b: Unit, c: Unit)
    requires PlainUnit(a) && PlainUnit(b) && PlainUnit(c)
    ensures PlainExpr(All3(a, b, c))
  {
    assert PlainExpr(One(c));
    assert PlainExpr(Chain(b, true, One(c)));
  }

  lemma OneWayIsPlain(sip: nat, dip: nat, sport: nat, dport: nat)
    ensures PlainExpr(OneWay(sip, dip, sport, dport))
  {
    var data := All3(Is(L3_PROT, 17), Is(DATA_SPORT, sport), Is(DATA_DPORT, dport));
    var kinds := Chain(Is(L3_PROT, 0xFC), false, One(Is(L3_PROT, 0xFD)));
    var ack := All3(Group(kinds), Is(ACK_SPORT, sport), Is(ACK_DPORT, dport));
    var qp := All3(Is(L3_PROT, 0), Is(QP_SPORT, sport), Is(QP_DPORT, dport));
    assert PlainExpr(One(Is(L3_PROT, 0xFD)));
    assert PlainExpr(kinds);
    All3IsPlain(Is(L3_PROT, 17), Is(DATA_SPORT, sport), Is(DATA_DPORT, dport));
    All3IsPlain(Group(kinds), Is(ACK_SPORT, sport), Is(ACK_DPORT, dport));
    All3IsPlain(Is(L3_PROT, 0), Is(QP_SPORT, sport), Is(QP_DPORT, dport));
    var tail := Chain(Group(ack), false, One(Group(qp)));
    assert PlainExpr(One(Group(qp)));
    assert PlainExpr(tail);
    assert OneKind(sport, dport) == Chain(Group(data), false, tail);
    assert PlainExpr(OneKind(sport, dport));
    All3IsPlain(Is(SIP, sip), Is(DIP, dip), Group(OneKind(sport, dport)));
  }

  lemma ExpansionIsPlain(b: Base)
    requires Expansion(b).Some?
    ensures PlainExpr(Expansion(b).value) && Shorthands(Text(Expansion(b).value)) == 0 && !b.name.Plain?
  {
    var p := b.value.parts;
    if b.name.Queue? {
      All3IsPlain(Is(NODE, p[0] % 0x1_0000), Is(INTF, p[1] % 0x100), Is(QIDX, p[2] % 0x100));
    } else {
      var sip, dip := p[0] % 0x1_0000_0000, p[1] % 0x1_0000_0000;
      var sport, dport := p[2] % 0x1_0000, p[3] % 0x1_0000;
      OneWayIsPlain(sip, dip, sport, dport);
      OneWayIsPlain(dip, sip, dport, sport);
    }
    PlainHasNoShorthands(Expansion(b).value);
  }

  // ----- Taking a text apart -----

  // skip_space
  function Trim(s: seq<Token>): (r: seq<Token>)
    ensures |r| <= |s| && (r != [] ==> r[0] != Space)
  {
    if s != [] && s[0] == Space then Trim(s[1..]) else s
  }

  // What stands in front of the bracket that closes the depth-th open one, and behind it.
  function Split(s: seq<Token>, depth: nat): (parts: Option<(seq<Token>, seq<Token>)>)
    requires depth > 0
    ensures parts.Some? ==> |parts.value.0| + |parts.value.1| < |s|
  {
    if s == [] then None
    else if s[0] == RParen && depth == 1 then Some(([], s[1..]))
    else Before([s[0]], Split(s[1..], Deeper(s[0], depth)))
  }

  // How many brackets are open behind t, if depth are open in front of it.
  function Deeper(t: Token, depth: nat): nat {
    if t == LParen then depth + 1 else if t == RParen && depth > 1 then depth - 1 else depth
  }

  function Before(a: seq<Token>, parts: Option<(seq<Token>, seq<Token>)>): Option<(seq<Token>, seq<Token>)> {
    match parts
    case None => None
    case Some(q) => Some((a + q.0, q.1))
  }

  // The text between brackets that enclose the whole text, if there are such brackets.
  function Inside(s: seq<Token>): (inner: Option<seq<Token>>)
    ensures inner.Some? ==> |inner.value| < |s|
  {
    var u := Trim(s);
    if u == [] || u[0] != LParen then None
    else
      match Split(u[1..], 1)
      case None => None
      case Some(q) => if Trim(q.1) == [] then Some(q.0) else None
  }

  // A text without all brackets that enclose it.
  function Strip(s: seq<Token>): seq<Token>
    decreases |s|
  {
    match Inside(s)
    case None => s
    case Some(inner) => Strip(inner)
  }

  predicate Joins(t: Token) {
    t == Amp || t == Bar
  }

  // How a text without outer brackets begins: a base expression alone, or a base expression or a bracket
  // followed by an operator and the rest. Anything else is malformed.
  datatype Shape =
    | Alone(base: Base)
    | WordFirst(base: Base, isAnd: bool, rest: seq<Token>)
    | GroupFirst(inner: seq<Token>, isAnd: bool, rest: seq<Token>)
    | Malformed

  function ShapeOf(s: seq<Token>): Shape {
    var u := Trim(s);
    if u == [] then Malformed
    else if u[0].Word? then AfterWord(u[0].base, Trim(u[1..]))
    else if u[0] == LParen then AfterGroup(Split(u[1..], 1))
    else Malformed
  }

  // v is what follows the word.
  function AfterWord(b: Base, v: seq<Token>): Shape {
    if v == [] then Alone(b) else if Joins(v[0]) then WordFirst(b, v[0] == Amp, v[1..]) else Malformed
  }

  function AfterGroup(parts: Option<(seq<Token>, seq<Token>)>): Shape {
    match parts
    case None => Malformed
    case Some(q) =>
      var v := Trim(q.1);
      if v != [] && Joins(v[0]) then GroupFirst(q.0, v[0] == Amp, v[1..]) else Malformed
  }

  // The parts of a text have no more shorthands than the text.
  lemma {:induction false} TrimKeepsShorthands(s: seq<Token>)
    ensures Shorthands(Trim(s)) == Shorthands(s)
  {
    if s != [] && s[0] == Space {
      TrimKeepsShorthands(s[1..]);
    }
  }

  lemma {:induction false} SplitShorthands(s: seq<Token>, depth: nat)
    requires depth > 0
    ensures var parts := Split(s, depth);
            parts.Some? ==> Shorthands(parts.value.0) + Shorthands(parts.value.1) == Shorthands(s)
  {
    if s != [] && (s[0] != RParen || depth != 1) {
      var parts := Split(s[1..], Deeper(s[0], depth));
      SplitShorthands(s[1..], Deeper(s[0], depth));
      if parts.Some? {
        ShorthandsConcat([s[0]], parts.value.0);
        assert [s[0]][1..] == [];
      }
    }
  }

  lemma {:induction false} StripShrinks(s: seq<Token>)
    ensures |Strip(s)| <= |s| && Shorthands(Strip(s)) <= Shorthands(s)
    decreases |s|
  {
    match Inside(s)
    case None =>
    case Some(inner) =>
      TrimKeepsShorthands(s);
      SplitShorthands(Trim(s)[1..], 1);
      StripShrinks(inner);
  }

  // Every part of a text is shorter and has no more shorthands.
  lemma ShapeShrinks(s: seq<Token>)
    ensures var r := ShapeOf(s);
            && ((r.Alone? || r.WordFirst?) ==> |s| > 0 && (!r.base.name.Plain? ==> Shorthands(s) > 0))
            && ((r.WordFirst? || r.GroupFirst?) ==> |r.rest| < |s| && Shorthands(r.rest) <= Shorthands(s))
            && (r.GroupFirst? ==> |r.inner| < |s| && Shorthands(r.inner) <= Shorthands(s))
  {
    var u := Trim(s);
    TrimKeepsShorthands(s);
    if u != [] && u[0].Word? {
      TrimKeepsShorthands(u[1..]);
    } else if u != [] && u[0] == LParen && Split(u[1..], 1).Some? {
      SplitShorthands(u[1..], 1);
      TrimKeepsShorthands(Split(u[1..], 1).value.1);
    }
  }

  // ----- Parsing -----

  // What a base expression stands for: a test, or its expansion.
  function ParseBase(b: Base): Option<Node>
    decreases if b.name.Plain? then 0 else 1, 0
  {
    if b.name.Plain? then Some(Test(b.name.field, b.op, b.value.number % Range(b.name.field)))
    else if Expansion(b).None? then None
    else
      ExpansionIsPlain(b);
      Parse(Text(Expansion(b).value))
  }

  function JoinBoth(isAnd: bool, left: Option<Node>, right: Option<Node>): Option<Node> {
    if left.None? || right.None? then None else Some(Join(isAnd, left.value, right.value))
  }

  // _parse
  function Parse(text: seq<Token>): Option<Node>
    decreases Shorthands(text), |text| + 1
  {
    StripShrinks(text);
    ShapeShrinks(Strip(text));
    match ShapeOf(Strip(text))
    case Alone(b) => ParseBase(b)
    case WordFirst(b, isAnd, rest) => JoinBoth(isAnd, ParseBase(b), Parse(rest))
    case GroupFirst(inner, isAnd, rest) => JoinBoth(isAnd, Parse(inner), Parse(rest))
    case Malformed => None
  }

  // ----- The reference meaning of an expression -----

  function MeaningOfBase(b: Base): Option<Node>
    decreases if b.name.Plain? then 0 else 1, b
  {
    if b.name.Plain? then Some(Test(b.name.field, b.op, b.value.number % Range(b.name.field)))
    else if Expansion(b).None? then None
    else
      ExpansionIsPlain(b);
      Meaning(Expansion(b).value)
  }

  function MeaningOfUnit(u: Unit): Option<Node>
    decreases if PlainUnit(u) then 0 else 1, u
  {
    match u
    case Leaf(b) => MeaningOfBase(b)
    case Group(e) => Meaning(e)
  }

  // Operators of one precedence, grouping to the right.
  function Meaning(e: Expr): Option<Node>
    decreases if PlainExpr(e) then 0 else 1, e
  {
    match e
    case One(u) => MeaningOfUnit(u)
    case Chain(u, isAnd, rest) => JoinBoth(isAnd, MeaningOfUnit(u), Meaning(rest))
  }

  // ----- The parser reads what is written -----

  lemma BeforeJoins(a: seq<Token>, b: seq<Token>, parts: Option<(seq<Token>, seq<Token>)>)
    ensures Before(a, Before(b, parts)) == Before(a + b, parts)
  {
    if parts.Some? {
      assert a + (b + parts.value.0) == a + b + parts.value.0;
    }
  }

  lemma NothingBefore(parts: Option<(seq<Token>, seq<Token>)>)
    ensures Before([], parts) == parts
  {
    if parts.Some? {
      assert [] + parts.value.0 == parts.value.0;
    }
  }

  lemma SplitOne(t: Token, z: seq<Token>, depth: nat)
    requires depth > 0 && (t != RParen || depth > 1)
    ensures Split([t] + z, depth) == Before([t], Split(z, Deeper(t, depth)))
  {
    assert ([t] + z)[1..] == z;
  }

  // A search for a closing bracket passes over a whole expression.
  lemma {:induction false} SplitText(e: Expr, z: seq<Token>, depth: nat)
    requires depth > 0
    ensures Split(Text(e) + z, depth) == Before(Text(e), Split(z, depth))
    decreases e, 1
  {
    match e
    case One(u) => SplitUnit(u, z, depth);
    case Chain(u, isAnd, rest) =>
      var op := if isAnd then Amp else Bar;
      SplitUnit(u, [op] + (Text(rest) + z), depth);
      SplitText(rest, z, depth);
      SplitJoined(UnitText(u), op, Text(rest), z, depth);
  }

  lemma SplitJoined(a: seq<Token>, op: Token, b: seq<Token>, z: seq<Token>, depth: nat)
    requires depth > 0 && Joins(op)
    requires Split(a + ([op] + (b + z)), depth) == Before(a, Split([op] + (b + z), depth))
    requires Split(b + z, depth) == Before(b, Split(z, depth))
    ensures Split(a + [op] + b + z, depth) == Before(a + [op] + b, Split(z, depth))
  {
    assert a + [op] + b + z == a + ([op] + (b + z)) && a + [op] + b == a + ([op] + b);
    SplitOne(op, b + z, depth);
    BeforeJoins([op], b, Split(z, depth));
    BeforeJoins(a, [op] + b, Split(z, depth));
  }

  lemma {:induction false} SplitUnit(u: Unit, z: seq<Token>, depth: nat)
    requires depth > 0
    ensures Split(UnitText(u) + z, depth) == Before(UnitText(u), Split(z, depth))
    decreases u, 0
  {
    match u
    case Leaf(b) => SplitOne(Word(b), z, depth);
    case Group(e) =>
      var close := [RParen] + z;
      assert UnitText(u) + z == [LParen] + (Text(e) + close);
      SplitOne(LParen, Text(e) + close, depth);
      SplitText(e, close, depth + 1);
      SplitOne(RParen, z, depth + 1);
      BeforeJoins(Text(e), [RParen], Split(z, depth));
      BeforeJoins([LParen], Text(e) + [RParen], Split(z, depth));
      assert UnitText(u) == [LParen] + (Text(e) + [RParen]);
  }

  // The bracket in front of a group is closed right behind it.
  lemma SplitGroup(e: Expr, z: seq<Token>)
    ensures var s := UnitText(Group(e)) + z;
            && s[0] == LParen && Split(s[1..], 1) == Some((Text(e), z))
  {
    var s, close := UnitText(Group(e)) + z, [RParen] + z;
    assert s[1..] == Text(e) + close;
    SplitText(e, close, 1);
    assert close[1..] == z;
    assert Text(e) + [] == Text(e);
  }

  // Brackets round a whole expression do not matter.
  lemma ParseGroup(inner: Expr)
    ensures Parse(Text(One(Group(inner)))) == Parse(Text(inner))
  {
    SplitGroup(inner, []);
    assert UnitText(Group(inner)) + [] == UnitText(Group(inner));
    assert Inside(Text(One(Group(inner)))) == Some(Text(inner));
  }

  lemma ParseGroupChain(inner: Expr, isAnd: bool, rest: Expr)
    ensures Parse(Text(Chain(Group(inner), isAnd, rest))) == JoinBoth(isAnd, Parse(Text(inner)), Parse(Text(rest)))
  {
    var s, z := Text(Chain(Group(inner), isAnd, rest)), [if isAnd then Amp else Bar] + Text(rest);
    assert s == UnitText(Group(inner)) + z;
    SplitGroup(inner, z);
    assert z[1..] == Text(rest);
    assert Inside(s) == None && ShapeOf(s) == GroupFirst(Text(inner), isAnd, Text(rest));
  }

  lemma ParseLeaf(b: Base)
    ensures Parse(Text(One(Leaf(b)))) == ParseBase(b)
  {
    assert Text(One(Leaf(b))) == [Word(b)];
  }

  lemma ParseLeafChain(b: Base, isAnd: bool, rest: Expr)
    ensures Parse(Text(Chain(Leaf(b), isAnd, rest))) == JoinBoth(isAnd, ParseBase(b), Parse(Text(rest)))
  {
    var s, z := Text(Chain(Leaf(b), isAnd, rest)), [if isAnd then Amp else Bar] + Text(rest);
    assert UnitText(Leaf(b)) == [Word(b)] && s == [Word(b)] + z;
    assert s[1..] == z && z[1..] == Text(rest);
    assert ShapeOf(s) == WordFirst(b, isAnd, Text(rest));
  }

  // Parsing the text of an expression yields its meaning, whatever brackets it has.
  lemma {:induction false} ParseText(e: Expr)
    ensures Parse(Text(e)) == Meaning(e)
    decreases if PlainExpr(e) then 0 else 1, e, 1
  {
    match e
    case One(Leaf(b)) =>
      assert PlainExpr(e) ==> PlainUnit(Leaf(b));
      ParseLeaf(b);
      ParseBaseText(b);
    case One(Group(inner)) =>
      assert PlainExpr(e) ==> PlainUnit(Group(inner));
      ParseGroup(inner);
      ParseText(inner);
    case Chain(Leaf(b), isAnd, rest) =>
      assert PlainExpr(e) ==> PlainUnit(Leaf(b));
      ParseLeafChain(b, isAnd, rest);
      ParseBaseText(b);
      ParseText(rest);
    case Chain(Group(inner), isAnd, rest) =>
      assert PlainExpr(e) ==> PlainUnit(Group(inner));
      ParseGroupChain(inner, isAnd, rest);
      ParseText(inner);
      ParseText(rest);
  }

  lemma {:induction false} ParseBaseText(b: Base)
    ensures ParseBase(b) == MeaningOfBase(b)
    decreases if b.name.Plain? then 0 else 1, b, 0
  {
    if Expansion(b).Some? {
      ExpansionIsPlain(b);
      ParseText(Expansion(b).value);
    }
  }

  // ----- Spaces -----

  function WithoutSpaces(s: seq<Token>): seq<Token> {
    if s == [] then []
    else if s[0] == Space then WithoutSpaces(s[1..])
    else [s[0]] + WithoutSpaces(s[1..])
  }

  lemma FirstStays(s: seq<Token>)
    requires s != [] && s[0] != Space
    ensures WithoutSpaces(s) != [] && WithoutSpaces(s)[0] == s[0] && WithoutSpaces(s)[1..] == WithoutSpaces(s[1..])
  {
  }

  lemma {:induction false} TrimWithoutSpaces(s: seq<Token>)
    ensures Trim(WithoutSpaces(s)) == WithoutSpaces(s) == WithoutSpaces(Trim(s))
  {
    if s != [] && s[0] == Space {
      TrimWithoutSpaces(s[1..]);
    }
  }

  lemma {:induction false} SplitWithoutSpaces(s: seq<Token>, depth: nat)
    requires depth > 0
    ensures Split(WithoutSpaces(s), depth)
            == match Split(s, depth)
               case None => None
               case Some(q) => Some((WithoutSpaces(q.0), WithoutSpaces(q.1)))
  {
    if s != [] && (s[0] != RParen || depth != 1) {
      var deeper := Deeper(s[0], depth);
      SplitWithoutSpaces(s[1..], deeper);
      if s[0] != Space {
        FirstStays(s);
      }
      match Split(s[1..], deeper)
      case None =>
      case Some(q) => assert ([s[0]] + q.0)[1..] == q.0;
    }
  }

  lemma InsideWithoutSpaces(s: seq<Token>)
    ensures Inside(WithoutSpaces(s)) == match Inside(s) case None => None case Some(u) => Some(WithoutSpaces(u))
  {
    var u := Trim(s);
    TrimWithoutSpaces(s);
    if u != [] {
      FirstStays(u);
      SplitWithoutSpaces(u[1..], 1);
      if Split(u[1..], 1).Some? {
        BlankWithoutSpaces(Split(u[1..], 1).value.1);
      }
    }
  }

  lemma BlankWithoutSpaces(s: seq<Token>)
    ensures Trim(s) == [] <==> Trim(WithoutSpaces(s)) == []
  {
    TrimWithoutSpaces(s);
    if Trim(s) != [] {
      FirstStays(Trim(s));
    }
  }

  lemma {:induction false} StripWithoutSpaces(s: seq<Token>)
    ensures Strip(WithoutSpaces(s)) == WithoutSpaces(Strip(s))
    decreases |s|
  {
    InsideWithoutSpaces(s);
    match Inside(s)
    case None =>
    case Some(inner) => StripWithoutSpaces(inner);
  }

  function ShapeWithoutSpaces(shape: Shape): Shape {
    match shape
    case WordFirst(b, isAnd, rest) => WordFirst(b, isAnd, WithoutSpaces(rest))
    case GroupFirst(inner, isAnd, rest) => GroupFirst(WithoutSpaces(inner), isAnd, WithoutSpaces(rest))
    case _ => shape
  }

  lemma AfterWordWithoutSpaces(b: Base, v: seq<Token>)
    requires v != [] ==> v[0] != Space
    ensures AfterWord(b, WithoutSpaces(v)) == ShapeWithoutSpaces(AfterWord(b, v))
  {
    if v != [] {
      FirstStays(v);
    }
  }

  lemma AfterGroupWithoutSpaces(inner: seq<Token>, z: seq<Token>)
    ensures AfterGroup(Some((WithoutSpaces(inner), WithoutSpaces(z))))
            == ShapeWithoutSpaces(AfterGroup(Some((inner, z))))
  {
    TrimWithoutSpaces(z);
    if Trim(z) != [] {
      FirstStays(Trim(z));
    }
  }

  lemma ShapeOfWithoutSpaces(s: seq<Token>)
    ensures ShapeOf(WithoutSpaces(s)) == ShapeWithoutSpaces(ShapeOf(s))
  {
    var u := Trim(s);
    TrimWithoutSpaces(s);
    if u != [] {
      FirstStays(u);
      if u[0].Word? {
        TrimWithoutSpaces(u[1..]);
        AfterWordWithoutSpaces(u[0].base, Trim(u[1..]));
      } else if u[0] == LParen {
        SplitWithoutSpaces(u[1..], 1);
        match Split(u[1..], 1)
        case None =>
        case Some(q) => AfterGroupWithoutSpaces(q.0, q.1);
      }
    }
  }

  // Spaces between the parts of a text make no difference, whether it is a filter or not.
  lemma {:induction false} SpacesDoNotMatter(text: seq<Token>)
    ensures Parse(WithoutSpaces(text)) == Parse(text)
    decreases Shorthands(text), |text| + 1
  {
    var s := Strip(text);
    StripShrinks(text);
    StripWithoutSpaces(text);
    ShapeOfWithoutSpaces(s);
    ShapeShrinks(s);
    match ShapeOf(s)
    case WordFirst(_, _, rest) => SpacesDoNotMatter(rest);
    case GroupFirst(inner, _, rest) =>
      SpacesDoNotMatter(inner);
      SpacesDoNotMatter(rest);
    case _ =>
  }

  // The text of an expression, with spaces anywhere between its parts, is parsed into its meaning.
  lemma ParseSpacedText(text: seq<Token>, e: Expr)
    requires WithoutSpaces(text) == Text(e)
    ensures Parse(text) == Meaning(e)
  {
    SpacesDoNotMatter(text);
    ParseText(e);
  }

  // ----- Rendering and parsing back -----

  // The values fit the fields they are compared with, as those of every parsed filter do.
  predicate InRange(n: Node) {
    match n
    case Test(f, _, v) => v < Range(f)
    case And(l, r) => InRange(l) && InRange(r)
    case Or(l, r) => InRange(l) && InRange(r)
  }

  // What str prints, with leaves written as base expressions.
  function Render(n: Node): seq<Token> {
    match n
    case Test(f, op, v) => [Word(Base(Plain(f), op, Value(v, [v])))]
    case And(l, r) => [LParen] + Render(l) + [RParen] + [Amp] + [LParen] + Render(r) + [RParen]
    case Or(l, r) => [LParen] + Render(l) + [RParen] + [Bar] + [LParen] + Render(r) + [RParen]
  }

  function ExprOf(n: Node): Expr {
    match n
    case Test(f, op, v) => One(Leaf(Base(Plain(f), op, Value(v, [v]))))
    case And(l, r) => Chain(Group(ExprOf(l)), true, One(Group(ExprOf(r))))
    case Or(l, r) => Chain(Group(ExprOf(l)), false, One(Group(ExprOf(r))))
  }

  lemma TextOfPair(a: Expr, isAnd: bool, b: Expr)
    ensures Text(Chain(Group(a), isAnd, One(Group(b))))
            == [LParen] + Text(a) + [RParen] + [if isAnd then Amp else Bar] + [LParen] + Text(b) + [RParen]
  {
    var right := One(Group(b));
    assert Text(right) == UnitText(Group(b)) == [LParen] + Text(b) + [RParen];
    assert UnitText(Group(a)) == [LParen] + Text(a) + [RParen];
    assert Text(Chain(Group(a), isAnd, right)) == UnitText(Group(a)) + [if isAnd then Amp else Bar] + Text(right);
  }

  lemma {:induction false} RenderIsText(n: Node)
    ensures Render(n) == Text(ExprOf(n))
  {
    match n
    case Test(_, _, _) =>
    case And(l, r) =>
      RenderIsText(l);
      RenderIsText(r);
      TextOfPair(ExprOf(l), true, ExprOf(r));
    case Or(l, r) =>
      RenderIsText(l);
      RenderIsText(r);
      TextOfPair(ExprOf(l), false, ExprOf(r));
  }

  lemma {:induction false} MeaningOfExprOf(n: Node)
    requires InRange(n)
    ensures Meaning(ExprOf(n)) == Some(n)
  {
    match n
    case Test(f, op, v) =>
      assert v % Range(f) == v;
      assert MeaningOfUnit(Leaf(Base(Plain(f), op, Value(v, [v])))) == Some(n);
    case And(l, r) =>
      MeaningOfExprOf(l);
      MeaningOfExprOf(r);
      assert Meaning(One(Group(ExprOf(r)))) == Some(r);
    case Or(l, r) =>
      MeaningOfExprOf(l);
      MeaningOfExprOf(r);
      assert Meaning(One(Group(ExprOf(r)))) == Some(r);
  }

  // Parsing undoes rendering.
  lemma ParseRender(n: Node)
    requires InRange(n)
    ensures Parse(Render(n)) == Some(n)
  {
    RenderIsText(n);
    ParseText(ExprOf(n));
    MeaningOfExprOf(n);
  }

  lemma {:induction false} ParsedIsInRange(text: seq<Token>)
    ensures Parse(text).Some? ==> InRange(Parse(text).value)
    decreases Shorthands(text), |text| + 1
  {
    StripShrinks(text);
    ShapeShrinks(Strip(text));
    match ShapeOf(Strip(text))
    case Alone(b) => BaseIsInRange(b);
    case WordFirst(b, _, rest) =>
      BaseIsInRange(b);
      ParsedIsInRange(rest);
    case GroupFirst(inner, _, rest) =>
      ParsedIsInRange(inner);
      ParsedIsInRange(rest);
    case Malformed =>
  }

  lemma {:induction false} BaseIsInRange(b: Base)
    ensures ParseBase(b).Some? ==> InRange(ParseBase(b).value)
    decreases if b.name.Plain? then 0 else 1, 0
  {
    if Expansion(b).Some? {
      ExpansionIsPlain(b);
      ParsedIsInRange(Text(Expansion(b).value));
    }
  }

  // What is parsed from any text comes back from its own rendering.
  lemma ParsedComesBack(text: seq<Token>)
    requires Parse(text).Some?
    ensures Parse(Render(Parse(text).value)) == Parse(text)
  {
    ParsedIsInRange(text);
    ParseRender(Parse(text).value);
  }

  // ----- Flow shorthands -----

  // The packets of one direction of a flow.
  predicate OfFlow(tr: Trace, sip: nat, dip: nat, sport: nat, dport: nat) {
    tr(SIP) == sip && tr(DIP) == dip && OfKind(tr, sport, dport)
  }

  // Data packets, acknowledgements and queue pair events carry their ports in different fields.
  predicate OfKind(tr: Trace, sport: nat, dport: nat) {
    || (tr(L3_PROT) == 17 && tr(DATA_SPORT) == sport && tr(DATA_DPORT) == dport)
    || ((tr(L3_PROT) == 0xFC || tr(L3_PROT) == 0xFD) && tr(ACK_SPORT) == sport && tr(ACK_DPORT) == dport)
    || (tr(L3_PROT) == 0 && tr(QP_SPORT) == sport && tr(QP_DPORT) == dport)
  }

  // Without a tree everything passes.
  predicate Accepts(filter: Option<Node>, tr: Trace) {
    filter.Some? ==> Passes(filter.value, tr)
  }

  lemma AcceptsIs(f: Field, v: nat, tr: Trace)
    requires v < Range(f)
    ensures MeaningOfUnit(Is(f, v)).Some? && (Accepts(MeaningOfUnit(Is(f, v)), tr) <==> tr(f) == v)
  {
    assert v % Range(f) == v;
  }

  lemma AcceptsAll3(a: Unit, b: Unit, c: Unit, tr: Trace)
    requires MeaningOfUnit(a).Some? && MeaningOfUnit(b).Some? && MeaningOfUnit(c).Some?
    ensures Meaning(All3(a, b, c)).Some?
    ensures Accepts(Meaning(All3(a, b, c)), tr)
            <==> Accepts(MeaningOfUnit(a), tr) && Accepts(MeaningOfUnit(b), tr) && Accepts(MeaningOfUnit(c), tr)
  {
    var x, y, z := MeaningOfUnit(a).value, MeaningOfUnit(b).value, MeaningOfUnit(c).value;
    assert Meaning(One(c)) == Some(z);
    assert Meaning(Chain(b, true, One(c))) == Some(And(y, z));
    assert Meaning(All3(a, b, c)) == Some(And(x, And(y, z)));
    assert Passes(And(y, z), tr) <==> Passes(y, tr) && Passes(z, tr);
  }

  lemma AcceptsEither(a: Unit, b: Unit, tr: Trace)
    requires MeaningOfUnit(a).Some? && MeaningOfUnit(b).Some?
    ensures Meaning(Chain(a, false, One(b))).Some?
    ensures Accepts(Meaning(Chain(a, false, One(b))), tr)
            <==> Accepts(MeaningOfUnit(a), tr) || Accepts(MeaningOfUnit(b), tr)
  {
    assert Meaning(One(b)) == MeaningOfUnit(b);
  }

  lemma AcceptsOneOf3(a: Expr, b: Expr, c: Expr, tr: Trace)
    requires Meaning(a).Some? && Meaning(b).Some? && Meaning(c).Some?
    ensures var e := Chain(Group(a), false, Chain(Group(b), false, One(Group(c))));
            Meaning(e).Some? && (Accepts(Meaning(e), tr)
                                 <==> Accepts(Meaning(a), tr) || Accepts(Meaning(b), tr) || Accepts(Meaning(c), tr))
  {
    var rest := Chain(Group(b), false, One(Group(c)));
    AcceptsEither(Group(b), Group(c), tr);
    assert Meaning(Chain(Group(a), false, rest)) == JoinBoth(false, Meaning(a), Meaning(rest));
  }

  lemma AcceptsPorts(kind: Unit, from: Field, to: Field, sport: nat, dport: nat, tr: Trace)
    requires MeaningOfUnit(kind).Some? && sport < Range(from) && dport < Range(to)
    ensures var e := All3(kind, Is(from, sport), Is(to, dport));
            Meaning(e).Some? && (Accepts(Meaning(e), tr)
                                 <==> Accepts(MeaningOfUnit(kind), tr) && tr(from) == sport && tr(to) == dport)
  {
    AcceptsIs(from, sport, tr);
    AcceptsIs(to, dport, tr);
    AcceptsAll3(kind, Is(from, sport), Is(to, dport), tr);
  }

  lemma AcceptsData(sport: nat, dport: nat, tr: Trace)
    requires sport < 0x1_0000 && dport < 0x1_0000
    ensures Meaning(DataKind(sport, dport)).Some?
    ensures Accepts(Meaning(DataKind(sport, dport)), tr)
            <==> tr(L3_PROT) == 17 && tr(DATA_SPORT) == sport && tr(DATA_DPORT) == dport
  {
    AcceptsIs(L3_PROT, 17, tr);
    AcceptsPorts(Is(L3_PROT, 17), DATA_SPORT, DATA_DPORT, sport, dport, tr);
  }

  lemma AcceptsAcks(sport: nat, dport: nat, tr: Trace)
    requires sport < 0x1_0000 && dport < 0x1_0000
    ensures Meaning(AckKind(sport, dport)).Some?
    ensures Accepts(Meaning(AckKind(sport, dport)), tr)
            <==> (tr(L3_PROT) == 0xFC || tr(L3_PROT) == 0xFD) && tr(ACK_SPORT) == sport && tr(ACK_DPORT) == dport
  {
    var kinds := Chain(Is(L3_PROT, 0xFC), false, One(Is(L3_PROT, 0xFD)));
    AcceptsIs(L3_PROT, 0xFC, tr);
    AcceptsIs(L3_PROT, 0xFD, tr);
    AcceptsEither(Is(L3_PROT, 0xFC), Is(L3_PROT, 0xFD), tr);
    assert MeaningOfUnit(Group(kinds)) == Meaning(kinds);
    AcceptsPorts(Group(kinds), ACK_SPORT, ACK_DPORT, sport, dport, tr);
  }

  lemma AcceptsQueuePairs(sport: nat, dport: nat, tr: Trace)
    requires sport < 0x1_0000 && dport < 0x1_0000
    ensures Meaning(QpKind(sport, dport)).Some?
    ensures Accepts(Meaning(QpKind(sport, dport)), tr)
            <==> tr(L3_PROT) == 0 && tr(QP_SPORT) == sport && tr(QP_DPORT) == dport
  {
    AcceptsIs(L3_PROT, 0, tr);
    AcceptsPorts(Is(L3_PROT, 0), QP_SPORT, QP_DPORT, sport, dport, tr);
  }

  lemma AcceptsOneKind(sport: nat, dport: nat, tr: Trace)
    requires sport < 0x1_0000 && dport < 0x1_0000
    ensures Meaning(OneKind(sport, dport)).Some?
    ensures Accepts(Meaning(OneKind(sport, dport)), tr) <==> OfKind(tr, sport, dport)
  {
    AcceptsData(sport, dport, tr);
    AcceptsAcks(sport, dport, tr);
    AcceptsQueuePairs(sport, dport, tr);
    AcceptsOneOf3(DataKind(sport, dport), AckKind(sport, dport), QpKind(sport, dport), tr);
  }

  // The text that flow and rflow expand into accepts just the packets of that direction.
  lemma AcceptsOneWay(sip: nat, dip: nat, sport: nat, dport: nat, tr: Trace)
    requires sip < 0x1_0000_0000 && dip < 0x1_0000_0000 && sport < 0x1_0000 && dport < 0x1_0000
    ensures Meaning(OneWay(sip, dip, sport, dport)).Some?
    ensures Accepts(Meaning(OneWay(sip, dip, sport, dport)), tr) <==> OfFlow(tr, sip, dip, sport, dport)
  {
    AcceptsIs(SIP, sip, tr);
    AcceptsIs(DIP, dip, tr);
    AcceptsOneKind(sport, dport, tr);
    assert MeaningOfUnit(Group(OneKind(sport, dport))) == Meaning(OneKind(sport, dport));
    AcceptsAll3(Is(SIP, sip), Is(DIP, dip), Group(OneKind(sport, dport)), tr);
  }

  // The filter that a base expression on its own is parsed into.
  function FilterOf(name: Name, op: Op, value: Value): Option<Node> {
    Parse([Word(Base(name, op, value))])
  }

  lemma FilterOfIsMeaning(name: Name, op: Op, value: Value)
    ensures FilterOf(name, op, value) == MeaningOfBase(Base(name, op, value))
  {
    var e := One(Leaf(Base(name, op, value)));
    assert Text(e) == [Word(Base(name, op, value))];
    ParseText(e);
  }

  // The widths of the fields of a record, in bits.
  lemma Widths(f: Field)
    ensures f == TIME ==> Range(f) == 0x1_0000_0000_0000_0000
    ensures f in {QLEN, SIP, DIP, DATA_SEQ} ==> Range(f) == 0x1_0000_0000
    ensures f in {NODE, SIZE, DATA_SPORT, DATA_DPORT, ACK_SPORT, ACK_DPORT, QP_SPORT, QP_DPORT} ==> Range(f) == 0x1_0000
    ensures f in {NODE_TYPE, INTF, QIDX, L3_PROT, EVENT, ECN, ACK_FLAGS} ==> Range(f) == 0x100
  {
  }

  // A test accepts the records whose field stands in the relation to the value, as it fits the field.
  lemma TestAccepts(f: Field, op: Op, value: Value, tr: Trace)
    ensures var filter, v := FilterOf(Plain(f), op, value), value.number % Range(f);
            && filter.Some?
            && (op == EQ ==> (Accepts(filter, tr) <==> tr(f) == v))
            && (op == NE ==> (Accepts(filter, tr) <==> tr(f) != v))
            && (op == GT ==> (Accepts(filter, tr) <==> tr(f) > v))
            && (op == GE ==> (Accepts(filter, tr) <==> tr(f) >= v))
            && (op == LT ==> (Accepts(filter, tr) <==> tr(f) < v))
            && (op == LE ==> (Accepts(filter, tr) <==> tr(f) <= v))
  {
    FilterOfIsMeaning(Plain(f), op, value);
  }

  // With = and three numbers, a queue filter accepts what happens at one queue of one port of one node.
  lemma QueueFilter(value: Value, tr: Trace)
    requires |value.parts| >= 3
    ensures FilterOf(Queue, EQ, value).Some?
    ensures Accepts(FilterOf(Queue, EQ, value), tr)
            <==> && tr(NODE) == value.parts[0] % 0x1_0000 && tr(INTF) == value.parts[1] % 0x100
                 && tr(QIDX) == value.parts[2] % 0x100
  {
    var node, intf, qidx := value.parts[0] % 0x1_0000, value.parts[1] % 0x100, value.parts[2] % 0x100;
    FilterOfIsMeaning(Queue, EQ, value);
    AcceptsIs(NODE, node, tr);
    AcceptsIs(INTF, intf, tr);
    AcceptsIs(QIDX, qidx, tr);
    AcceptsAll3(Is(NODE, node), Is(INTF, intf), Is(QIDX, qidx), tr);
  }

  // All base expressions of an expression make filters.
  predicate AllFilters(e: Expr) {
    match e
    case One(u) => UnitFilters(u)
    case Chain(u, _, rest) => UnitFilters(u) && AllFilters(rest)
  }

  predicate UnitFilters(u: Unit) {
    match u
    case Leaf(b) => FilterOf(b.name, b.op, b.value).Some?
    case Group(e) => AllFilters(e)
  }

  // What an expression says of a record, given what its base expressions accept: & and | are of one precedence, and
  // everything behind an operator is its right side.
  predicate Says(e: Expr, tr: Trace) {
    match e
    case One(u) => UnitSays(u, tr)
    case Chain(u, isAnd, rest) =>
      if isAnd then UnitSays(u, tr) && Says(rest, tr) else UnitSays(u, tr) || Says(rest, tr)
  }

  predicate UnitSays(u: Unit, tr: Trace) {
    match u
    case Leaf(b) => Accepts(FilterOf(b.name, b.op, b.value), tr)
    case Group(e) => Says(e, tr)
  }

  lemma {:induction false} MeaningSays(e: Expr, tr: Trace)
    ensures Meaning(e).Some? <==> AllFilters(e)
    ensures AllFilters(e) ==> (Accepts(Meaning(e), tr) <==> Says(e, tr))
    decreases e, 1
  {
    match e
    case One(u) => UnitMeaningSays(u, tr);
    case Chain(u, isAnd, rest) =>
      UnitMeaningSays(u, tr);
      MeaningSays(rest, tr);
  }

  lemma {:induction false} UnitMeaningSays(u: Unit, tr: Trace)
    ensures MeaningOfUnit(u).Some? <==> UnitFilters(u)
    ensures UnitFilters(u) ==> (Accepts(MeaningOfUnit(u), tr) <==> UnitSays(u, tr))
    decreases u, 0
  {
    match u
    case Leaf(b) => FilterOfIsMeaning(b.name, b.op, b.value);
    case Group(e) => MeaningSays(e, tr);
  }

  /** The text of an expression, with any spaces and brackets, makes a filter exactly when all its base expressions
      do, and then accepts just what the expression says; otherwise everything passes. */
  lemma TextAccepts(text: seq<Token>, e: Expr, tr: Trace)
    requires WithoutSpaces(text) == Text(e)
    ensures Parse(text).Some? <==> AllFilters(e)
    ensures Accepts(Parse(text), tr) <==> (AllFilters(e) ==> Says(e, tr))
  {
    ParseSpacedText(text, e);
    MeaningSays(e, tr);
  }

  // With = and four numbers, a flow filter accepts one direction, an rflow filter the other,
  // and a biflow filter both.
  lemma FlowFilters(value: Value, tr: Trace)
    requires |value.parts| >= 4
    ensures var sip, dip := value.parts[0] % 0x1_0000_0000, value.parts[1] % 0x1_0000_0000;
            var sport, dport := value.parts[2] % 0x1_0000, value.parts[3] % 0x1_0000;
            && FilterOf(Flow, EQ, value).Some? && FilterOf(RFlow, EQ, value).Some? && FilterOf(BiFlow, EQ, value).Some?
            && (Accepts(FilterOf(Flow, EQ, value), tr) <==> OfFlow(tr, sip, dip, sport, dport))
            && (Accepts(FilterOf(RFlow, EQ, value), tr) <==> OfFlow(tr, dip, sip, dport, sport))
            && (Accepts(FilterOf(BiFlow, EQ, value), tr)
                <==> Accepts(FilterOf(Flow, EQ, value), tr) || Accepts(FilterOf(RFlow, EQ, value), tr))
  {
    var sip, dip := value.parts[0] % 0x1_0000_0000, value.parts[1] % 0x1_0000_0000;
    var sport, dport := value.parts[2] % 0x1_0000, value.parts[3] % 0x1_0000;
    FilterOfIsMeaning(Flow, EQ, value);
    FilterOfIsMeaning(RFlow, EQ, value);
    FilterOfIsMeaning(BiFlow, EQ, value);
    AcceptsOneWay(sip, dip, sport, dport, tr);
    AcceptsOneWay(dip, sip, dport, sport, tr);
    AcceptsEither(Group(OneWay(sip, dip, sport, dport)), Group(OneWay(dip, sip, dport, sport)), tr);
  }

  // A shorthand makes a filter exactly when it is used with = and has enough numbers.
  lemma ShorthandIsWellFormedIff(name: Name, op: Op, value: Value)
    requires !name.Plain?
    ensures FilterOf(name, op, value).Some?
            <==> op == EQ && !name.UnknownName? && |value.parts| >= (if name.Queue? then 3 else 4)
  {
    FilterOfIsMeaning(name, op, value);
    var b := Base(name, op, value);
    if Expansion(b).Some? {
      var tr: Trace := f => 0;
      if name.Queue? {
        var p := value.parts;
        AcceptsIs(NODE, p[0] % 0x1_0000, tr);
        AcceptsIs(INTF, p[1] % 0x100, tr);
        AcceptsIs(QIDX, p[2] % 0x100, tr);
        AcceptsAll3(Is(NODE, p[0] % 0x1_0000), Is(INTF, p[1] % 0x100), Is(QIDX, p[2] % 0x100), tr);
      } else {
        var sip, dip := value.parts[0] % 0x1_0000_0000, value.parts[1] % 0x1_0000_0000;
        var sport, dport := value.parts[2] % 0x1_0000, value.parts[3] % 0x1_0000;
        AcceptsOneWay(sip, dip, sport, dport, tr);
        AcceptsOneWay(dip, sip, dport, sport, tr);
        AcceptsEither(Group(OneWay(sip, dip, sport, dport)), Group(OneWay(dip, sip, dport, sport)), tr);
      }
    }
  }

  // ----- The program's scans -----

  method SkipSpace(s: seq<Token>, from: nat) returns (i: nat)
    requires from <= |s|
    ensures from <= i <= |s| && s[i..] == Trim(s[from..])
  {
    i := from;
    while i < |s| && s[i] == Space
      invariant from <= i <= |s| && Trim(s[from..]) == Trim(s[i..])
    {
      assert s[i..][1..] == s[i + 1..];
      i := i + 1;
    }
  }

  lemma SplitFurther(s: seq<Token>, from: nat, i: nat, c: nat)
    requires from <= i < |s| && c > 0 && (s[i] != RParen || c > 1)
    requires Split(s[from..], 1) == Before(s[from..i], Split(s[i..], c))
    ensures Split(s[from..], 1) == Before(s[from..i + 1], Split(s[i + 1..], Deeper(s[i], c)))
  {
    var rest := s[i + 1..];
    assert s[i..] == [s[i]] + rest && s[from..i] + [s[i]] == s[from..i + 1];
    SplitOne(s[i], rest, c);
    BeforeJoins(s[from..i], [s[i]], Split(rest, Deeper(s[i], c)));
  }

  // The position of the bracket that closes the one before position from, or the end of the text.
  method FindClose(s: seq<Token>, from: nat) returns (i: nat)
    requires from <= |s|
    ensures from <= i <= |s|
    ensures Split(s[from..], 1) == if i == |s| then None else Some((s[from..i], s[i + 1..]))
  {
    i := from;
    var c := 1;
    NothingBefore(Split(s[from..], 1));
    assert s[from..from] == [];
    while i < |s| && (s[i] != RParen || c > 1)
      invariant from <= i <= |s| && c > 0
      invariant Split(s[from..], 1) == Before(s[from..i], Split(s[i..], c))
    {
      SplitFurther(s, from, i, c);
      if s[i] == LParen {
        c := c + 1;
      } else if s[i] == RParen {
        c := c - 1;
      }
      i := i + 1;
    }
    assert i < |s| ==> s[i..][1..] == s[i + 1..];
    assert s[from..i] + [] == s[from..i];
  }

  method StripOuterBracket(s: seq<Token>) returns (r: seq<Token>)
    ensures r == Strip(s)
    decreases |s|
  {
    assert s[0..] == s;
    var i := SkipSpace(s, 0);
    if i < |s| && s[i] == LParen {
      var start := i + 1;
      assert s[i..][1..] == s[start..];
      var end := FindClose(s, start);
      // no closing bracket: the text stays
      if end >= |s| {
        return s;
      }
      i := SkipSpace(s, end + 1);
      // nothing but spaces behind it: these brackets are outer ones
      if i >= |s| {
        r := StripOuterBracket(s[start..end]);
        return r;
      }
    }
    return s;
  }

  // A word stands at i, and from k on what follows it.
  lemma WordShape(s: seq<Token>, i: nat, k: nat)
    requires i < k <= |s| && s[i..] == Trim(s) && s[i].Word? && s[k..] == Trim(s[i + 1..])
    ensures ShapeOf(s) == if k == |s| then Alone(s[i].base)
                          else if Joins(s[k]) then WordFirst(s[i].base, s[k] == Amp, s[k + 1..])
                          else Malformed
  {
    var u, v := s[i..], s[k..];
    assert u[1..] == s[i + 1..];
    assert k < |s| ==> v[1..] == s[k + 1..];
  }

  // A bracket stands at i, the one that closes it at end, and from k on what follows.
  lemma GroupShape(s: seq<Token>, i: nat, end: nat, k: nat)
    requires i < end < k <= |s| && s[i..] == Trim(s) && s[i] == LParen && s[k..] == Trim(s[end + 1..])
    requires Split(s[i + 1..], 1) == Some((s[i + 1..end], s[end + 1..]))
    ensures ShapeOf(s) == if k < |s| && Joins(s[k]) then GroupFirst(s[i + 1..end], s[k] == Amp, s[k + 1..])
                          else Malformed
  {
    var u, v := s[i..], s[k..];
    assert u[1..] == s[i + 1..];
    assert k < |s| ==> v[1..] == s[k + 1..];
  }

  lemma NoShape(s: seq<Token>, i: nat)
    requires i <= |s| && s[i..] == Trim(s)
    requires i < |s| ==> !s[i].Word? && (s[i] == LParen ==> Split(s[i + 1..], 1) == None)
    ensures ShapeOf(s) == Malformed
  {
    assert i < |s| ==> s[i..][1..] == s[i + 1..];
  }

  // The scans with which _parse takes a text apart.
  method ReadShape(expr: seq<Token>) returns (shape: Shape)
    ensures shape == ShapeOf(expr)
  {
    assert expr[0..] == expr;
    var i := SkipSpace(expr, 0);
    if i < |expr| && expr[i].Word? {
      var k := SkipSpace(expr, i + 1);
      WordShape(expr, i, k);
      return if k >= |expr| then Alone(expr[i].base)
             else if Joins(expr[k]) then WordFirst(expr[i].base, expr[k] == Amp, expr[k + 1..])
             else Malformed;
    }
    if i < |expr| && expr[i] == LParen {
      shape := ReadGroup(expr, i);
      return;
    }
    NoShape(expr, i);
    return Malformed;
  }

  // The bracket at i is the first token that is not a space.
  method ReadGroup(expr: seq<Token>, i: nat) returns (shape: Shape)
    requires i < |expr| && expr[i..] == Trim(expr) && expr[i] == LParen
    ensures shape == ShapeOf(expr)
  {
    var end := FindClose(expr, i + 1);
    if end >= |expr| {
      NoShape(expr, i);
      return Malformed;
    }
    var k := SkipSpace(expr, end + 1);
    GroupShape(expr, i, end, k);
    return if k < |expr| && Joins(expr[k]) then GroupFirst(expr[i + 1..end], expr[k] == Amp, expr[k + 1..])
           else Malformed;
  }

  method ParseFilter(text: seq<Token>) returns (filter: Option<Node>)
    ensures filter == Parse(text)
    decreases Shorthands(text), |text| + 1
  {
    var expr := StripOuterBracket(text);
    var shape := ReadShape(expr);
    StripShrinks(text);
    ShapeShrinks(expr);
    if shape.Malformed? {
      return None;
    }
    var left;
    if shape.GroupFirst? {
      left := ParseFilter(shape.inner);
    } else {
      left := ParseBaseExpr(shape.base);
    }
    if left.None? || shape.Alone? {
      return left;
    }
    var right := ParseFilter(shape.rest);
    if right.None? {
      return None;
    }
    return Some(Join(shape.isAnd, left.value, right.value));
  }

  method ParseBaseExpr(b: Base) returns (filter: Option<Node>)
    ensures filter == ParseBase(b)
    decreases if b.name.Plain? then 0 else 1, 0
  {
    if b.name.Plain? {
      return Some(Test(b.name.field, b.op, b.value.number % Range(b.name.field)));
    }
    // the name is none of a field
    var expansion := Expansion(b);
    if expansion.None? {
      return None;
    }
    ExpansionIsPlain(b);
    filter := ParseFilter(Text(expansion.value));
  }
}
