/** extract_balanced_json_local of src/server.c: cutting one JSON object or array
    off the front of a text by counting brackets outside strings. */
module BalancedJson {
  import opened JsonText
  import opened Texts

  // ---- The grammar. JSON text at the level of its brackets and strings; names,
  // numbers, commas, colons and white space are all Other.

  datatype Node =
    | Other(c: char)
    | Quoted(units: seq<Unit>)
    | Group(curly: bool, kids: seq<Node>)

  predicate Lexical(n: Node) {
    match n
    case Other(c) => c !in "{}[]\""
    case Quoted(us) => AllWellFormed(us)
    case Group(_, kids) => forall i | 0 <= i < |kids| :: Lexical(kids[i])
  }

  function Opener(curly: bool): char { if curly then '{' else '[' }
  function Closer(curly: bool): char { if curly then '}' else ']' }

  function PrintNode(n: Node): (s: string)
    ensures s != []
    decreases n, 0
  {
    match n
    case Other(c) => [c]
    case Quoted(us) => "\"" + PrintAll(us) + "\""
    case Group(curly, kids) => [Opener(curly)] + PrintNodes(kids) + [Closer(curly)]
  }

  function PrintNodes(ns: seq<Node>): string
    decreases ns, 1
  {
    if ns == [] then [] else PrintNode(ns[0]) + PrintNodes(ns[1..])
  }

  // ---- The scanner

  datatype Scanner = Scanner(depth: int, inString: bool, escaped: bool)

  predicate Counts(st: Scanner, c: char) {
    !st.escaped && !st.inString && c != '"'
  }

  /** c ends the value that was opened first. */
  predicate Closes(curly: bool, st: Scanner, c: char) {
    Counts(st, c) && c == Closer(curly) && st.depth == 1
  }

  function Next(curly: bool, st: Scanner, c: char): Scanner {
    if st.escaped then st.(escaped := false)
    else if c == '\\' && st.inString then st.(escaped := true)
    else if c == '"' then st.(inString := !st.inString)
    else if st.inString then st
    else if c == Opener(curly) then st.(depth := st.depth + 1)
    else if c == Closer(curly) then st.(depth := st.depth - 1)
    else st
  }

  /** The state after s, unless the value closes somewhere in it. */
  function Run(curly: bool, s: string, st: Scanner): Option<Scanner> {
    if s == [] then Some(st)
    else if Closes(curly, st, s[0]) then None
    else Run(curly, s[1..], Next(curly, st, s[0]))
  }

  /** How many bytes of s belong to the value, if it closes in s. */
  function Scan(curly: bool, s: string, st: Scanner): (n: Option<nat>)
    ensures n.Some? ==> n.value <= |s|
  {
    if s == [] then None
    else if Closes(curly, st, s[0]) then Some(1)
    else Shift(Scan(curly, s[1..], Next(curly, st, s[0])), 1)
  }

  function Shift(n: Option<nat>, before: nat): Option<nat> {
    match n case None => None case Some(k) => Some(before + k)
  }

  const START := Scanner(0, false, false)

  /** What ends up in a buffer of maxLen bytes, and the result; maxLen > 0 and
      start begins with a bracket. */
  function Extract(start: string, maxLen: nat): (r: (bool, string))
    requires 0 < maxLen && start != [] && start[0] in "{["
    ensures |r.1| < maxLen
  {
    var seen := Seen(start, maxLen);
    match Scan(start[0] == '{', seen, START)
    case Some(n) => (true, seen[..n])
    case None => (seen != [], seen)
  }

  /** The bytes there is room for. */
  function Seen(start: string, maxLen: nat): (seen: string)
    requires 0 < maxLen
    ensures |seen| < maxLen && seen <= start && (|seen| == |start| || |seen| == maxLen - 1)
  {
    if |start| < maxLen then start else start[..maxLen - 1]
  }

  /** What one byte does to the loop's state, and whether it closes the value. */
  method Step(curly: bool, depth: int, inString: bool, escaped: bool, c: char)
    returns (depth': int, inString': bool, escaped': bool, closes: bool)
    ensures closes == Closes(curly, Scanner(depth, inString, escaped), c)
    ensures Scanner(depth', inString', escaped') == Next(curly, Scanner(depth, inString, escaped), c)
  {
    depth', inString', escaped', closes := depth, inString, escaped, false;
    if escaped {
      escaped' := false;
    } else if c == '\\' && inString {
      escaped' := true;
    } else if c == '"' {
      inString' := !inString;
    } else if !inString {
      if c == Opener(curly) { depth' := depth' + 1; }
      if c == Closer(curly) {
        depth' := depth' - 1;
        closes := depth' == 0;
      }
    }
  }

  method ExtractBalanced(start: string, dest: array<char>) returns (ok: bool)
    modifies dest
    ensures dest.Length == 0 || start == [] || start[0] !in "{[" ==> !ok && dest[..] == old(dest[..])
    ensures dest.Length > 0 && start != [] && start[0] in "{[" ==>
              var (result, text) := Extract(start, dest.Length);
              ok == result && |text| < dest.Length && dest[..|text|] == text && dest[|text|] == '\0'
  {
    hide Scan, Seen, Lexical, Next, Closes;
    if dest.Length == 0 || start == [] || start[0] !in "{[" { return false; }
    var curly := start[0] == '{';
    ghost var seen := Seen(start, dest.Length);
    var depth, inString, escaped := 0, false, false;
    var p := 0;
    while p < |start| && p + 1 < dest.Length
      invariant p <= |seen| && dest[..p] == seen[..p]
      invariant Scan(curly, seen, START) == Shift(Scan(curly, seen[p..], Scanner(depth, inString, escaped)), p)
    {
      dest[p] := start[p];
      ScanStep(curly, seen, p, Scanner(depth, inString, escaped));
      var closes;
      depth, inString, escaped, closes := Step(curly, depth, inString, escaped, start[p]);
      p := p + 1;
      if closes {
        dest[p] := '\0';
        return true;
      }
    }
    dest[p] := '\0';
    ScanEnd(curly, Scanner(depth, inString, escaped));
    return p > 0;
  }

  lemma ScanStep(curly: bool, s: string, p: nat, st: Scanner)
    requires p < |s|
    ensures Scan(curly, s[p..], st) ==
              if Closes(curly, st, s[p]) then Some(1) else Shift(Scan(curly, s[p + 1..], Next(curly, st, s[p])), 1)
  {
    assert s[p..][1..] == s[p + 1..];
  }

  lemma ScanEnd(curly: bool, st: Scanner)
    ensures Scan(curly, [], st) == None
  {
  }

  // ---- The scanner and the grammar

  lemma {:induction false} RunConcat(curly: bool, a: string, b: string, st: Scanner)
    ensures Run(curly, a + b, st) == if Run(curly, a, st).None? then None else Run(curly, b, Run(curly, a, st).value)
  {
    if a == [] {
      assert a + b == b;
    } else {
      assert (a + b)[1..] == a[1..] + b;
      RunConcat(curly, a[1..], b, Next(curly, st, a[0]));
    }
  }

  lemma {:induction false} ScanAfterRun(curly: bool, a: string, b: string, st: Scanner)
    requires Run(curly, a, st).Some?
    ensures Scan(curly, a + b, st) == Shift(Scan(curly, b, Run(curly, a, st).value), |a|)
  {
    if a == [] {
      assert a + b == b;
    } else {
      assert (a + b)[1..] == a[1..] + b;
      ScanAfterRun(curly, a[1..], b, Next(curly, st, a[0]));
    }
  }

  lemma RunUnit(curly: bool, u: Unit, st: Scanner)
    requires WellFormed(u) && st.inString && !st.escaped
    ensures Run(curly, Print(u), st) == Some(st)
  {
    match u
    case Plain(c) =>
    case Simple(l) => assert Print(u)[1..] == [l] && Run(curly, [l], st.(escaped := true)) == Some(st);
    case Hex(d) =>
      assert Print(u)[1..][1..] == d;
      assert d == [d[0]] + ([d[1]] + ([d[2]] + [d[3]]));
      RunConcat(curly, [d[0]], [d[1]] + ([d[2]] + [d[3]]), st);
      RunConcat(curly, [d[1]], [d[2]] + [d[3]], st);
      RunConcat(curly, [d[2]], [d[3]], st);
  }

  lemma {:induction false} RunUnits(curly: bool, us: seq<Unit>, st: Scanner)
    requires AllWellFormed(us) && st.inString && !st.escaped
    ensures Run(curly, PrintAll(us), st) == Some(st)
  {
    if us != [] {
      RunUnit(curly, us[0], st);
      RunUnits(curly, us[1..], st);
      RunConcat(curly, Print(us[0]), PrintAll(us[1..]), st);
    }
  }

  /** Inside a value, any complete piece of JSON leaves the scanner where it was. */
  lemma {:induction false} RunNode(curly: bool, n: Node, st: Scanner)
    requires Lexical(n) && 1 <= st.depth && !st.inString && !st.escaped
    ensures Run(curly, PrintNode(n), st) == Some(st)
    decreases n, 0
  {
    match n
    case Other(c) =>
    case Quoted(us) =>
      var inside := st.(inString := true);
      RunUnits(curly, us, inside);
      RunConcat(curly, "\"" + PrintAll(us), "\"", st);
      RunConcat(curly, "\"", PrintAll(us), st);
    case Group(c, kids) =>
      var inside := Next(curly, st, Opener(c));
      RunNodes(curly, kids, inside);
      RunConcat(curly, [Opener(c)] + PrintNodes(kids), [Closer(c)], st);
      RunConcat(curly, [Opener(c)], PrintNodes(kids), st);
  }

  lemma {:induction false} RunNodes(curly: bool, ns: seq<Node>, st: Scanner)
    requires (forall i | 0 <= i < |ns| :: Lexical(ns[i])) && 1 <= st.depth && !st.inString && !st.escaped
    ensures Run(curly, PrintNodes(ns), st) == Some(st)
    decreases ns, 1
  {
    if ns != [] {
      RunNode(curly, ns[0], st);
      RunNodes(curly, ns[1..], st);
      RunConcat(curly, PrintNode(ns[0]), PrintNodes(ns[1..]), st);
    }
  }

  lemma RunBody(curly: bool, kids: seq<Node>)
    requires Lexical(Group(curly, kids))
    ensures Run(curly, [Opener(curly)] + PrintNodes(kids), START) == Some(Scanner(1, false, false))
  {
    RunOpener(curly);
    RunNodes(curly, kids, Scanner(1, false, false));
    RunConcat(curly, [Opener(curly)], PrintNodes(kids), START);
  }

  lemma RunOpener(curly: bool)
    ensures Run(curly, [Opener(curly)], START) == Some(Scanner(1, false, false))
  {
  }

  lemma ScanGroup(curly: bool, kids: seq<Node>, rest: string)
    requires Lexical(Group(curly, kids))
    ensures Scan(curly, PrintNode(Group(curly, kids)) + rest, START) == Some(|PrintNode(Group(curly, kids))|)
  {
    hide Run, PrintNodes;
    var body, tail := [Opener(curly)] + PrintNodes(kids), [Closer(curly)] + rest;
    RunBody(curly, kids);
    ScanAfterRun(curly, body, tail, START);
    assert Closes(curly, Scanner(1, false, false), tail[0]);
    assert PrintNode(Group(curly, kids)) + rest == body + tail;
  }

  /** A printed object or array comes back whole, however deep and whatever its
      strings hold and whatever follows, exactly when the buffer is longer than
      it; otherwise its beginning comes back, and with success all the same. */
  lemma ExtractOfPrinted(curly: bool, kids: seq<Node>, rest: string, maxLen: nat)
    requires Lexical(Group(curly, kids)) && 0 < maxLen
    ensures var text := PrintNode(Group(curly, kids));
            && (Extract(text + rest, maxLen) == (true, text) <==> |text| < maxLen)
            && (maxLen <= |text| ==> Extract(text + rest, maxLen) == (1 < maxLen, text[..maxLen - 1]))
  {
    var text := PrintNode(Group(curly, kids));
    var body := [Opener(curly)] + PrintNodes(kids);
    assert text == body + [Closer(curly)];
    if |text| < maxLen {
      if |text + rest| < maxLen {
        ScanGroup(curly, kids, rest);
        assert (text + rest)[..|text|] == text;
      } else {
        var seen := rest[..maxLen - 1 - |text|];
        assert (text + rest)[..maxLen - 1] == text + seen;
        ScanGroup(curly, kids, seen);
        assert (text + seen)[..|text|] == text;
      }
    } else {
      RunBody(curly, kids);
      var cut := body[..maxLen - 1];
      assert (text + rest)[..maxLen - 1] == text[..maxLen - 1] == cut;
      assert body == cut + body[maxLen - 1..];
      RunConcat(curly, cut, body[maxLen - 1..], START);
      ScanAfterRun(curly, cut, [], START);
      assert cut + [] == cut;
    }
  }
}
