/** Texts as they are laid out: the lexemes of a node with their positions, and the syntax they stand for. */
module YamlLayout {
  import opened Bytes
  import opened Sequences
  import opened YamlTokens
  import opened YamlTokenStream
  import opened YamlLexemes
  import opened YamlSyntax

  /** The lexemes of a node: its properties and its body. */
  datatype Text = NoText | Text(props: seq<Lexeme>, body: Body)

  /** A scalar or an alias, or a collection between brackets or laid out by indentation. */
  datatype Body = NoBody | Word(x: Lexeme) | Group(form: Form, open: seq<Lexeme>, items: seq<Element>, end: seq<Lexeme>)

  /** An entry of a collection: a comma before it, a dash or question mark, a node, a colon, and another node. */
  datatype Element = Element(comma: seq<Lexeme>, mark: seq<Lexeme>, key: Text, colon: seq<Lexeme>, value: Text)

  // ----- the lexemes

  function TextLexemes(t: Text): seq<Lexeme>
    decreases t
  {
    match t
    case NoText => []
    case Text(props, body) => props + BodyLexemes(body)
  }

  function BodyLexemes(b: Body): seq<Lexeme>
    decreases b
  {
    match b
    case NoBody => []
    case Word(x) => [x]
    case Group(_, open, items, end) => open + (ItemsLexemes(items) + end)
  }

  function ItemsLexemes(items: seq<Element>): seq<Lexeme>
    decreases items
  {
    if items == [] then [] else ItemLexemes(items[0]) + ItemsLexemes(items[1..])
  }

  function ItemLexemes(i: Element): seq<Lexeme>
    decreases i
  {
    i.comma + (i.mark + (TextLexemes(i.key) + (i.colon + TextLexemes(i.value))))
  }

  // ----- the syntax

  function AnchorOf(xs: seq<Lexeme>): Option<string> {
    if xs == [] then None else if xs[0].kind.Anchor? then Some(xs[0].kind.name) else AnchorOf(xs[1..])
  }

  function TagWrittenIn(xs: seq<Lexeme>): Option<(string, string)> {
    if xs == [] then None else if xs[0].kind.Tag? then Some((xs[0].kind.handle, xs[0].kind.suffix)) else TagWrittenIn(xs[1..])
  }

  function PropertiesOf(xs: seq<Lexeme>): Properties {
    Properties(AnchorOf(xs), TagWrittenIn(xs), xs != [] && xs[0].kind.Tag?)
  }

  predicate IsScalarKind(k: Kind) {
    k.BlockScalar? || k.QuotedScalar? || k.PlainScalar?
  }

  function NodeOf(t: Text): Node
    decreases t
  {
    match t
    case NoText => Missing
    case Text(props, body) =>
      if body.Word? && body.x.kind.Alias? then Node.Alias(body.x.kind.name) else Node(PropertiesOf(props), ContentOf(body))
  }

  function ContentOf(b: Body): Content
    decreases b
  {
    match b
    case NoBody => Nothing
    case Word(x) => if IsScalarKind(x.kind) then Scalar(x.kind.value, x.kind.PlainScalar?) else Nothing
    case Group(form, _, items, end) => Collection(form, EntriesOf(form, items), |end| == 2)
  }

  function EntriesOf(form: Form, items: seq<Element>): seq<Entry>
    decreases items
  {
    if items == [] then [] else [EntryOf(form, items[0])] + EntriesOf(form, items[1..])
  }

  function EntryOf(form: Form, i: Element): Entry
    decreases i
  {
    var pair := !form.BlockSequence? && !form.Indentless? && (i.mark != [] || i.colon != []);
    Entry(pair, [], NodeOf(i.key), i.colon != [], NodeOf(i.value))
  }

  // ----- nodes between brackets, and scalars

  predicate ArePropertyLexemes(xs: seq<Lexeme>) {
    && |xs| <= 2 && (forall i :: 0 <= i < |xs| ==> xs[i].sound && (xs[i].kind.Anchor? || xs[i].kind.Tag?))
    && (|xs| == 2 ==> xs[0].kind.Anchor? != xs[1].kind.Anchor?)
  }

  /** A node that can be a simple key: on one line it would be. */
  predicate Inline(t: Text, flow: nat)
    decreases t
  {
    t.Text? ==>
      && ArePropertyLexemes(t.props)
      && match t.body
         case NoBody => t.props != []
         case Word(x) => x.sound && (x.kind.QuotedScalar? || x.kind.PlainScalar? || (x.kind.Alias? && t.props == []))
         case Group(_, _, _, _) => Bracketed(t.body, flow)
  }

  predicate Bracketed(b: Body, flow: nat)
    requires b.Group?
    decreases b
  {
    var sequence := b.form.FlowSequence?;
    && IsFlow(b.form) && flow < 10000
    && |b.open| == 1 && b.open[0].kind == FlowStart(sequence)
    && 1 <= |b.end| <= 2 && b.end[|b.end| - 1].kind == FlowEnd(sequence)
    && (|b.end| == 2 ==> b.end[0].kind == FlowComma && b.items != [])
    && InlineItems(b.form, b.items, flow + 1, true)
  }

  predicate InlineItems(form: Form, items: seq<Element>, flow: nat, first: bool)
    decreases items
  {
    items != [] ==> InlineItem(form, items[0], flow, first) && InlineItems(form, items[1..], flow, false)
  }

  predicate InlineItem(form: Form, i: Element, flow: nat, first: bool)
    decreases i
  {
    && (if first then i.comma == [] else |i.comma| == 1 && i.comma[0].kind == FlowComma)
    && |i.mark| <= 1 && (i.mark != [] ==> i.mark[0].kind == QuestionMark)
    && |i.colon| <= 1 && (i.colon != [] ==> i.colon[0].kind == Colon)
    && Inline(i.key, flow) && Inline(i.value, flow)
    && (i.colon == [] ==> i.value.NoText?)
    && (i.mark == [] || form.FlowSequence? ==> i.key.Text?)
    && (i.mark == [] && i.colon != [] ==> KeyFits(i.key, i.colon[0]))
  }

  /** A simple key and its colon are on one line, and at most 1024 characters apart. */
  predicate KeyFits(key: Text, colon: Lexeme) {
    var xs := TextLexemes(key);
    xs != [] ==> xs[0].start.line == colon.start.line && colon.start.index <= xs[0].start.index + 1024
  }

  // ----- nodes laid out by indentation

  /** Where a block collection begins. */
  function FirstLexeme(items: seq<Element>): Lexeme
    requires items != [] && ItemLexemes(items[0]) != []
  {
    ItemLexemes(items[0])[0]
  }

  predicate RightOf(xs: seq<Lexeme>, column: int) {
    forall i :: 0 <= i < |xs| ==> xs[i].start.column > column
  }

  /** A node to the right of column `indent`, with `depth` blocks open; `allowed` tells whether a block may begin on
      the same line. */
  predicate Indented(t: Text, indent: int, depth: nat, allowed: bool, indentless: bool)
    decreases t
  {
    t.Text? ==>
      && ArePropertyLexemes(t.props) && RightOf(t.props, indent)
      && match t.body
         case NoBody => t.props != []
         case Word(x) => x.sound && (IsScalarKind(x.kind) || (x.kind.Alias? && t.props == [])) && x.start.column > indent
         case Group(form, open, items, end) =>
           if IsFlow(form) then Bracketed(t.body, 0) && open[0].start.column > indent
           else open == [] && end == [] && Block(form, items, indent, depth, allowed && t.props == [], indentless)
  }

  predicate Block(form: Form, items: seq<Element>, indent: int, depth: nat, allowed: bool, indentless: bool)
    decreases items, 1
  {
    && items != [] && ItemLexemes(items[0]) != []
    && var x := FirstLexeme(items);
       && (allowed || x.newLine)
       && if form.Indentless? then indentless && x.start.column == indent && IndentedItems(form, items, indent, depth, true)
          else !IsFlow(form) && x.start.column > indent && depth < 10000
               && IndentedItems(form, items, x.start.column, depth + 1, true)
  }

  predicate IndentedItems(form: Form, items: seq<Element>, column: int, depth: nat, first: bool)
    decreases items, 0
  {
    items != [] ==> IndentedItem(form, items[0], column, depth, first) && IndentedItems(form, items[1..], column, depth, false)
  }

  /** Every entry begins at the column of its collection, on a line of its own unless it is the first. */
  predicate IndentedItem(form: Form, i: Element, column: int, depth: nat, first: bool)
    decreases i
  {
    && i.comma == [] && ItemLexemes(i) != [] && ItemLexemes(i)[0].start.column == column && (first || ItemLexemes(i)[0].newLine)
    && if form.BlockSequence? || form.Indentless? then
         && |i.mark| == 1 && i.mark[0].kind == Dash && i.colon == [] && i.value.NoText?
         && Indented(i.key, column, depth, true, false)
       else if i.mark != [] then
         && |i.mark| == 1 && i.mark[0].kind == QuestionMark && Indented(i.key, column, depth, true, true)
         && |i.colon| <= 1 && (i.colon == [] ==> i.value.NoText?)
         && (i.colon != [] ==> i.colon[0].kind == Colon && i.colon[0].newLine && i.colon[0].start.column == column)
         && Indented(i.value, column, depth, true, true)
       else
         && |i.colon| == 1 && i.colon[0].kind == Colon && i.key.Text? && Inline(i.key, 0) && KeyFits(i.key, i.colon[0])
         && OnLine(i.key, column) && i.colon[0].start.column >= column && Indented(i.value, column, depth, false, true)
  }

  /** The properties and the first lexeme of the body of a simple key are on the line where it begins. */
  predicate OnLine(t: Text, column: int) {
    t.Text? ==>
      && (forall i :: 0 <= i < |t.props| ==> t.props[i].start.column >= column && (i > 0 ==> !t.props[i].newLine))
      && (t.body.Word? ==> t.body.x.start.column >= column && (t.props != [] ==> !t.body.x.newLine))
      && (t.body.Group? ==> forall i :: 0 <= i < |t.body.open| ==>
            t.body.open[i].start.column >= column && (t.props != [] ==> !t.body.open[i].newLine))
  }
}
