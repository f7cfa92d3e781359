/** The texts of the facts tell values apart too. */
module FlattenTexts {
  import opened Common
  import opened Quoting
  import opened Flatten
  import opened FlattenProofs

  // ----- Fact texts ------------------------------------------------------

  function PredicateName(f: Fact): string {
    match f
    case Link(_, _, _) => "json_link"
    case StrFact(_, _, _) => "json_str"
    case BoolFact(_, _, _) => "json_bool"
    case NumFact(_, _, _) => "json_num"
  }

  /** The third argument and the closing parenthesis. */
  function LastArgument(f: Fact): string {
    match f
    case Link(_, _, child) => "\"" + Quoted(child, ")")
    case StrFact(_, _, text) => "\"" + Quoted(text, ")")
    case BoolFact(_, _, b) => if b then "\"true\")" else "\"false\")"
    case NumFact(_, _, n) => Signed(n) + ")"
  }

  /** The text of a fact, as it is handed to the engine. */
  function Render(f: Fact): string {
    PredicateName(f) + ("(\"" + Quoted(f.node, ", \"" + Quoted(f.key, ", " + LastArgument(f))))
  }

  predicate CleanFact(f: Fact) {
    && Clean(f.node) && Clean(f.key)
    && (f.Link? ==> Clean(f.child))
    && (f.StrFact? ==> Clean(f.text))
  }

  // ----- Reading a text back ---------------------------------------------

  /** Two quoted arguments, and what follows the comma after them. */
  function ReadTwo(t: string): Option<(string, string, string)> {
    match ReadQuoted(t)
    case None => None
    case Some((node, rest)) =>
      if !(", \"" <= rest) then None
      else match ReadQuoted(rest[3..])
        case None => None
        case Some((key, last)) => if ", " <= last then Some((node, key, last[2..])) else None
  }

  function ReadLastQuoted(last: string): Option<string> {
    if !("\"" <= last) then None
    else match ReadQuoted(last[1..])
      case Some((text, ")")) => Some(text)
      case _ => None
  }

  function ReadSigned(s: string): int {
    if "-" <= s then -FromDecimal(s[1..]) else FromDecimal(s)
  }

  /** The fact of the given predicate whose arguments these are. */
  function ReadArguments(name: string, node: string, key: string, last: string): Option<Fact> {
    if name == "link" && ReadLastQuoted(last).Some? then Some(Link(node, key, ReadLastQuoted(last).value))
    else if name == "str" && ReadLastQuoted(last).Some? then Some(StrFact(node, key, ReadLastQuoted(last).value))
    else if name == "bool" && last == "\"true\")" then Some(BoolFact(node, key, true))
    else if name == "bool" && last == "\"false\")" then Some(BoolFact(node, key, false))
    else if name == "num" && last != "" then Some(NumFact(node, key, ReadSigned(last[..|last| - 1])))
    else None
  }

  /** The name before the first parenthesis, and what follows it. */
  function ReadName(t: string): (string, string) {
    if t == "" || t[0] == '(' then ("", t)
    else
      var (name, rest) := ReadName(t[1..]);
      ([t[0]] + name, rest)
  }

  /** What a text says: a predicate of the json family, a node, a key, and a value of the predicate's kind. */
  function ReadFact(t: string): Option<Fact> {
    var (name, rest) := ReadName(t);
    if !("json_" <= name) || !("(\"" <= rest) then None
    else match ReadTwo(rest[2..])
      case None => None
      case Some((node, key, last)) => ReadArguments(name[5..], node, key, last)
  }

  /** A fact without what escaping loses. */
  function SanitizeFact(f: Fact): Fact {
    match f
    case Link(node, key, child) => Link(Sanitize(node), Sanitize(key), Sanitize(child))
    case StrFact(node, key, text) => StrFact(Sanitize(node), Sanitize(key), Sanitize(text))
    case BoolFact(node, key, b) => BoolFact(Sanitize(node), Sanitize(key), b)
    case NumFact(node, key, n) => NumFact(Sanitize(node), Sanitize(key), n)
  }

  lemma TwoReadBack(node: string, key: string, last: string)
    ensures ReadTwo(Quoted(node, ", \"" + Quoted(key, ", " + last))) == Some((Sanitize(node), Sanitize(key), last))
  {
    var second := Quoted(key, ", " + last);
    var rest := ", \"" + second;
    QuotedReadsBack(node, rest);
    assert rest[3..] == second;
    QuotedReadsBack(key, ", " + last);
    assert (", " + last)[2..] == last;
  }

  lemma LastReadsBack(text: string)
    ensures ReadLastQuoted("\"" + Quoted(text, ")")) == Some(Sanitize(text))
  {
    assert ("\"" + Quoted(text, ")"))[1..] == Quoted(text, ")");
    QuotedReadsBack(text, ")");
  }

  lemma SignedReadsBack(n: int)
    ensures ReadSigned(Signed(n)) == n
  {
    DecimalReadsBack(if n < 0 then -n else n);
    if n < 0 {
      assert Signed(n)[1..] == Decimal(-n);
    }
  }

  lemma {:induction false} NameReadsBack(name: string, rest: string)
    requires '(' !in name && (rest == "" || rest[0] == '(')
    ensures ReadName(name + rest) == (name, rest)
  {
    if name == "" {
      assert name + rest == rest;
    } else {
      assert (name + rest)[1..] == name[1..] + rest;
      assert (name + rest)[0] == name[0] && name[0] in name && name == [name[0]] + name[1..];
      NameReadsBack(name[1..], rest);
    }
  }

  /** The name of the predicate after "json_". */
  function Kind(f: Fact): string {
    match f
    case Link(_, _, _) => "link"
    case StrFact(_, _, _) => "str"
    case BoolFact(_, _, _) => "bool"
    case NumFact(_, _, _) => "num"
  }

  lemma NameIsKind(f: Fact)
    ensures PredicateName(f) == "json_" + Kind(f) && '(' !in PredicateName(f)
  {
  }

  lemma ArgumentsReadBack(f: Fact)
    ensures ReadArguments(Kind(f), Sanitize(f.node), Sanitize(f.key), LastArgument(f)) == Some(SanitizeFact(f))
  {
    match f
    case Link(_, _, child) => LastReadsBack(child);
    case StrFact(_, _, text) => LastReadsBack(text);
    case BoolFact(_, _, _) =>
    case NumFact(_, _, n) =>
      SignedReadsBack(n);
      assert LastArgument(f)[..|LastArgument(f)| - 1] == Signed(n);
  }

  /** The text of every fact reads back as the fact, but for control bytes that escaping loses. */
  lemma TextReadsBack(f: Fact)
    ensures ReadFact(Render(f)) == Some(SanitizeFact(f))
  {
    var args := Quoted(f.node, ", \"" + Quoted(f.key, ", " + LastArgument(f)));
    NameIsKind(f);
    NameReadsBack(PredicateName(f), "(\"" + args);
    assert ("(\"" + args)[2..] == args;
    TwoReadBack(f.node, f.key, LastArgument(f));
    assert ("json_" + Kind(f))[5..] == Kind(f);
    ArgumentsReadBack(f);
  }

  lemma CleanIsKept(s: string)
    requires Clean(s)
    ensures Sanitize(s) == s
  {
  }

  lemma CleanFactIsKept(f: Fact)
    requires CleanFact(f)
    ensures SanitizeFact(f) == f
  {
    CleanIsKept(f.node);
    CleanIsKept(f.key);
    if f.Link? { CleanIsKept(f.child); }
    if f.StrFact? { CleanIsKept(f.text); }
  }

  /** Facts without stray control bytes have different texts when they differ. */
  lemma RenderIsInjective(f: Fact, g: Fact)
    requires CleanFact(f) && CleanFact(g) && Render(f) == Render(g)
    ensures f == g
  {
    TextReadsBack(f);
    TextReadsBack(g);
    CleanFactIsKept(f);
    CleanFactIsKept(g);
  }

  // ----- The texts determine the value -----------------------------------

  predicate CleanValue(v: Json) {
    && (v.Str? ==> Clean(v.s))
    && (v.Obj? ==> forall i | 0 <= i < |v.fields| :: Clean(v.fields[i].key))
    && forall i | 0 <= i < Size(v) :: CleanValue(ValueAt(v, i))
  }

  lemma NodeIdIsClean(k: nat)
    ensures Clean(NodeId(k)) && Clean(Decimal(k))
  {
    DecimalReadsBack(k);
    assert forall i | 0 <= i < |Decimal(k)| :: Decimal(k)[i] in Decimal(k);
  }

  lemma KeyIsClean(v: Json, i: nat)
    requires CleanValue(v) && i < Size(v)
    ensures Clean(KeyAt(v, i)) && CleanValue(ValueAt(v, i))
  {
    NodeIdIsClean(i);
  }

  predicate AllClean(facts: seq<Fact>) {
    forall f | f in facts :: CleanFact(f)
  }

  lemma AllCleanConcat(a: seq<Fact>, b: seq<Fact>)
    requires AllClean(a) && AllClean(b)
    ensures AllClean(a + b)
  {
  }

  lemma {:induction false} EmitIsClean(id: string, v: Json, i: nat, n: nat)
    requires i <= Size(v) && Clean(id) && CleanValue(v)
    ensures AllClean(EmitFrom(id, v, i, n).0)
    decreases v, Size(v) - i
  {
    if i < Size(v) {
      var key, w := KeyAt(v, i), ValueAt(v, i);
      KeyIsClean(v, i);
      OneIsClean(id, key, w, n);
      var (first, n1) := EmitOne(id, key, w, n);
      EmitIsClean(id, v, i + 1, n1);
      AllCleanConcat(first, EmitFrom(id, v, i + 1, n1).0);
    }
  }

  lemma {:induction false} OneIsClean(id: string, key: string, w: Json, n: nat)
    requires Clean(id) && Clean(key) && CleanValue(w)
    ensures AllClean(EmitOne(id, key, w, n).0)
    decreases w, Size(w) + 1
  {
    if IsContainer(w) {
      NodeIdIsClean(n + 1);
      EmitIsClean(NodeId(n + 1), w, 0, n + 1);
    }
  }

  function Texts(root: string, v: Json): set<string> {
    set f | f in FlatFacts(root, v) :: Render(f)
  }

  lemma SameTextsSameFacts(root: string, v: Json, w: Json, f: Fact)
    requires Clean(root) && CleanValue(v) && CleanValue(w)
    requires Texts(root, v) <= Texts(root, w) && f in FlatFacts(root, v)
    ensures f in FlatFacts(root, w)
  {
    EmitIsClean(root, v, 0, 0);
    EmitIsClean(root, w, 0, 0);
    assert Render(f) in Texts(root, v);
    var g :| g in FlatFacts(root, w) && Render(g) == Render(f);
    RenderIsInjective(f, g);
  }

  /** Two payloads without stray control bytes give the engine the same texts only if they are the same tree. */
  lemma TextsDetermineTree(root: string, v: Json, w: Json)
    requires IsContainer(v) && WellKeyed(v) && CleanValue(v) && IsContainer(w) && WellKeyed(w) && CleanValue(w)
    requires Clean(root) && Texts(root, v) == Texts(root, w)
    requires !InRange(root, 0, Containers(v, 0)) && !InRange(root, 0, Containers(w, 0))
    ensures TreeOf(v) == TreeOf(w)
  {
    forall f ensures f in FlatFacts(root, v) <==> f in FlatFacts(root, w) {
      if f in FlatFacts(root, v) { SameTextsSameFacts(root, v, w, f); }
      if f in FlatFacts(root, w) { SameTextsSameFacts(root, w, v, f); }
    }
    assert FactSet(root, v) == FactSet(root, w);
    FactsDetermineTree(root, v, TreeOf(v));
    FactsDetermineTree(root, w, TreeOf(v));
  }
}
