/**
 * JSON texts (RFC 8259, sections 2 to 7), as far as nesting goes: numbers and literal names are
 * relaxed to any run of their characters, and an escape to a backslash and any character, so
 * every JSON text is covered.
 */
module JsonText {
  import opened Prelude

  datatype Char = Plain(c: char) | Escaped(c: char)

  datatype Value =
    | Word(text: string)
    | Str(chars: seq<Char>)
    | Arr(items: Items)
    | Obj(items: Items)

  /** The elements of an array, or the members of an object, each with the blanks around it. */
  datatype Items =
    | End(blank: string)
    | Item(lead: string, key: Option<Key>, value: Value, trail: string, rest: Option<Items>)

  datatype Key = Key(chars: seq<Char>, before: string, after: string)

  predicate IsBlankChar(c: char) { c == ' ' || c == '\t' || c == '\n' || c == '\r' }

  predicate Blank(s: string) { forall i :: 0 <= i < |s| ==> IsBlankChar(s[i]) }

  predicate IsWordChar(c: char) {
    'a' <= c <= 'z' || 'A' <= c <= 'Z' || '0' <= c <= '9' || c == '+' || c == '-' || c == '.'
  }

  function Chars(cs: seq<Char>): string {
    if cs == [] then [] else CharText(cs[0]) + Chars(cs[1..])
  }

  function Quoted(cs: seq<Char>): string { ['"'] + Chars(cs) + ['"'] }

  predicate GoodChars(cs: seq<Char>) {
    forall i :: 0 <= i < |cs| && cs[i].Plain? ==> cs[i].c != '"' && cs[i].c != '\\'
  }

  function Text(v: Value): string {
    match v
    case Word(t) => t
    case Str(cs) => Quoted(cs)
    case Arr(items) => ['['] + ItemsText(items) + [']']
    case Obj(items) => ['{'] + ItemsText(items) + ['}']
  }

  function KeyText(k: Key): string { Quoted(k.chars) + k.before + [':'] + k.after }

  function ItemsText(items: Items): string {
    match items
    case End(blank) => blank
    case Item(lead, key, value, trail, rest) =>
      lead + (if key.Some? then KeyText(key.value) else []) + Text(value) + trail +
      if rest.Some? then [','] + ItemsText(rest.value) else []
  }

  ghost predicate Good(v: Value) {
    match v
    case Word(t) => t != [] && forall i :: 0 <= i < |t| ==> IsWordChar(t[i])
    case Str(cs) => GoodChars(cs)
    case Arr(items) => GoodItems(items, false)
    case Obj(items) => GoodItems(items, true)
  }

  ghost predicate GoodItems(items: Items, keyed: bool) {
    match items
    case End(blank) => Blank(blank)
    case Item(lead, key, value, trail, rest) =>
      && Blank(lead) && Blank(trail) && Good(value) && (key.Some? <==> keyed)
      && (key.Some? ==> GoodChars(key.value.chars) && Blank(key.value.before) && Blank(key.value.after))
      && (rest.Some? ==> rest.value.Item? && GoodItems(rest.value, keyed))
  }

  /** A JSON text: one value with blanks around it. */
  ghost predicate IsJsonText(s: string) {
    exists lead, v, trail :: Blank(lead) && Good(v) && Blank(trail) && s == lead + Text(v) + trail
  }

  // ----- nesting

  datatype Scanner = Scanner(depth: int, inString: bool, escaped: bool)

  function Step(st: Scanner, c: char): Scanner {
    if st.escaped then st.(escaped := false)
    else if st.inString then
      if c == '\\' then st.(escaped := true) else if c == '"' then st.(inString := false) else st
    else if c == '"' then st.(inString := true)
    else if c == '{' || c == '[' then st.(depth := st.depth + 1)
    else if c == '}' || c == ']' then st.(depth := st.depth - 1)
    else st
  }

  function Scan(st: Scanner, s: string): Scanner {
    if s == [] then st else Step(Scan(st, s[..|s| - 1]), s[|s| - 1])
  }

  function Outside(depth: int): Scanner { Scanner(depth, false, false) }

  lemma {:induction false} ScanAppend(st: Scanner, a: string, b: string)
    ensures Scan(st, a + b) == Scan(Scan(st, a), b)
  {
    if b == [] {
      assert a + b == a;
    } else {
      ScanAppend(st, a, b[..|b| - 1]);
      assert (a + b)[..|a + b| - 1] == a + b[..|b| - 1];
    }
  }

  /** Text that comes back to where it started and never drops below it. */
  ghost predicate Balanced(s: string) {
    forall d: int :: Scan(Outside(d), s) == Outside(d) &&
      forall k :: 0 <= k <= |s| ==> Scan(Outside(d), s[..k]).depth >= d
  }

  lemma BalancedAppend(a: string, b: string)
    requires Balanced(a) && Balanced(b)
    ensures Balanced(a + b)
  {
    forall d: int
      ensures Scan(Outside(d), a + b) == Outside(d)
      ensures forall k :: 0 <= k <= |a + b| ==> Scan(Outside(d), (a + b)[..k]).depth >= d
    {
      ScanAppend(Outside(d), a, b);
      forall k | 0 <= k <= |a + b|
        ensures Scan(Outside(d), (a + b)[..k]).depth >= d
      {
        if k <= |a| {
          assert (a + b)[..k] == a[..k];
        } else {
          assert (a + b)[..k] == a + b[..k - |a|];
          ScanAppend(Outside(d), a, b[..k - |a|]);
        }
      }
    }
  }

  /** Characters that mean nothing to the scanner outside strings. */
  predicate Neutral(c: char) { c !in ['"', '{', '}', '[', ']'] }

  lemma {:induction false} NeutralScan(st: Scanner, s: string)
    requires !st.inString && !st.escaped && forall i :: 0 <= i < |s| ==> Neutral(s[i])
    ensures Scan(st, s) == st
  {
    if s != [] {
      NeutralScan(st, s[..|s| - 1]);
    }
  }

  lemma NeutralBalanced(s: string)
    requires forall i :: 0 <= i < |s| ==> Neutral(s[i])
    ensures Balanced(s)
  {
    forall d: int, k | 0 <= k <= |s|
      ensures Scan(Outside(d), s[..k]) == Outside(d)
    {
      NeutralScan(Outside(d), s[..k]);
    }
    assert s[..|s|] == s;
  }

  function CharText(c: Char): string { if c.Plain? then [c.c] else ['\\', c.c] }

  lemma CharScan(d: int, c: Char, k: nat)
    requires c.Plain? ==> c.c != '"' && c.c != '\\'
    requires k <= |CharText(c)|
    ensures Scan(Scanner(d, true, false), CharText(c)) == Scanner(d, true, false)
    ensures Scan(Scanner(d, true, false), CharText(c)[..k]).depth == d
  {
    var st, s := Scanner(d, true, false), CharText(c);
    assert s[..0] == [] && s[..1][..0] == [] && s[..|s|] == s;
    assert Scan(st, s[..1]) == Step(st, s[0]);
  }

  lemma {:induction false} StringScan(d: int, cs: seq<Char>, k: nat)
    requires GoodChars(cs) && k <= |Chars(cs)|
    ensures Scan(Scanner(d, true, false), Chars(cs)) == Scanner(d, true, false)
    ensures Scan(Scanner(d, true, false), Chars(cs)[..k]).depth == d
    decreases cs
  {
    hide Step;
    var st := Scanner(d, true, false);
    if cs != [] {
      var head, tail := CharText(cs[0]), Chars(cs[1..]);
      CharScan(d, cs[0], if k <= |head| then k else 0);
      ScanAppend(st, head, tail);
      StringScan(d, cs[1..], if k <= |head| then 0 else k - |head|);
      if k <= |head| {
        assert Chars(cs)[..k] == head[..k];
      } else {
        assert Chars(cs)[..k] == head + tail[..k - |head|];
        ScanAppend(st, head, tail[..k - |head|]);
      }
    }
  }

  lemma QuotedBalanced(cs: seq<Char>)
    requires GoodChars(cs)
    ensures Balanced(Quoted(cs))
  {
    var s, body := Quoted(cs), Chars(cs);
    forall d: int, k | 0 <= k <= |s|
      ensures Scan(Outside(d), s[..k]).depth >= d
      ensures k == |s| ==> Scan(Outside(d), s[..k]) == Outside(d)
    {
      assert ['"'][..0] == [] && Scan(Outside(d), ['"']) == Scanner(d, true, false);
      if k == 0 {
        assert s[..k] == [];
      } else if k < |s| {
        assert s[..k] == ['"'] + body[..k - 1];
        ScanAppend(Outside(d), ['"'], body[..k - 1]);
        StringScan(d, cs, k - 1);
      } else {
        assert s[..k] == s && s[..|s| - 1] == ['"'] + body;
        ScanAppend(Outside(d), ['"'], body);
        StringScan(d, cs, 0);
      }
    }
    assert s[..|s|] == s;
  }

  /** Wrapping balanced text in a pair of brackets: in between, the nesting is strictly deeper. */
  lemma Bracketed(open: char, inner: string, close: char)
    requires Balanced(inner) && (open == '{' || open == '[') && (close == '}' || close == ']')
    ensures Balanced([open] + inner + [close])
    ensures forall d: int, k :: 0 < k <= |inner| + 1 ==> Scan(Outside(d), ([open] + inner + [close])[..k]).depth > d
  {
    var s := [open] + inner + [close];
    forall d: int, k | 0 <= k <= |s|
      ensures Scan(Outside(d), s[..k]).depth >= d
      ensures 0 < k < |s| ==> Scan(Outside(d), s[..k]).depth > d
      ensures k == |s| ==> Scan(Outside(d), s[..k]) == Outside(d)
    {
      assert [open][..0] == [] && Scan(Outside(d), [open]) == Outside(d + 1);
      if k == 0 {
        assert s[..k] == [];
      } else if k < |s| {
        assert s[..k] == [open] + inner[..k - 1];
        ScanAppend(Outside(d), [open], inner[..k - 1]);
      } else {
        assert s[..k] == s && s[..|s| - 1] == [open] + inner;
        ScanAppend(Outside(d), [open], inner);
      }
    }
    assert s[..|s|] == s;
  }

  lemma {:induction false} TextBalanced(v: Value)
    requires Good(v)
    ensures Balanced(Text(v))
  {
    match v {
      case Word(t) =>
        NeutralBalanced(t);
      case Str(cs) =>
        QuotedBalanced(cs);
      case Arr(items) =>
        ItemsBalanced(items, false);
        Bracketed('[', ItemsText(items), ']');
      case Obj(items) =>
        ItemsBalanced(items, true);
        Bracketed('{', ItemsText(items), '}');
    }
  }

  lemma {:induction false} ItemsBalanced(items: Items, keyed: bool)
    requires GoodItems(items, keyed)
    ensures Balanced(ItemsText(items))
  {
    match items {
      case End(blank) =>
        NeutralBalanced(blank);
      case Item(lead, key, value, trail, rest) =>
        NeutralBalanced(lead);
        NeutralBalanced([]);
        NeutralBalanced(trail);
        NeutralBalanced([',']);
        var k := if key.Some? then KeyText(key.value) else [];
        if key.Some? {
          KeyBalanced(key.value);
        }
        TextBalanced(value);
        var tail := if rest.Some? then [','] + ItemsText(rest.value) else [];
        if rest.Some? {
          ItemsBalanced(rest.value, keyed);
          BalancedAppend([','], ItemsText(rest.value));
        }
        hide Balanced;
        BalancedAppend(lead, k);
        BalancedAppend(lead + k, Text(value));
        BalancedAppend(lead + k + Text(value), trail);
        BalancedAppend(lead + k + Text(value) + trail, tail);
    }
  }

  lemma KeyBalanced(k: Key)
    requires GoodChars(k.chars) && Blank(k.before) && Blank(k.after)
    ensures Balanced(KeyText(k))
  {
    QuotedBalanced(k.chars);
    NeutralBalanced(k.before);
    NeutralBalanced([':']);
    NeutralBalanced(k.after);
    hide Balanced;
    BalancedAppend(Quoted(k.chars), k.before);
    BalancedAppend(Quoted(k.chars) + k.before, [':']);
    BalancedAppend(Quoted(k.chars) + k.before + [':'], k.after);
  }

  lemma JsonTextBalanced(lead: string, v: Value, trail: string)
    requires Blank(lead) && Good(v) && Blank(trail)
    ensures Balanced(lead + Text(v) + trail)
    ensures !Blank(lead + Text(v) + trail)
  {
    NeutralBalanced(lead);
    NeutralBalanced(trail);
    TextBalanced(v);
    hide Balanced;
    BalancedAppend(lead, Text(v));
    BalancedAppend(lead + Text(v), trail);
    var s := lead + Text(v) + trail;
    assert s[|lead|] == Text(v)[0];
    assert !IsBlankChar(Text(v)[0]);
  }

  /** A JSON text is not blank, and leaves the scanner where it found it. */
  lemma JsonTextScan(s: string)
    requires IsJsonText(s)
    ensures !Blank(s) && Scan(Outside(0), s) == Outside(0)
  {
    hide Good, Blank, Scan;
    var lead, v, trail :| Blank(lead) && Good(v) && Blank(trail) && s == lead + Text(v) + trail;
    JsonTextBalanced(lead, v, trail);
  }

  /** A proper prefix of an object is blank or still inside the object. */
  lemma ObjectPrefixScan(lead: string, items: Items, p: string)
    requires Blank(lead) && Good(Obj(items))
    requires p <= lead + Text(Obj(items)) && |p| < |lead| + |Text(Obj(items))|
    ensures Blank(p) || Scan(Outside(0), p).depth > 0
  {
    var obj := Text(Obj(items));
    if |p| <= |lead| {
      assert p == lead[..|p|];
    } else {
      ItemsBalanced(items, true);
      Bracketed('{', ItemsText(items), '}');
      var k := |p| - |lead|;
      assert p == lead + obj[..k];
      NeutralScan(Outside(0), lead);
      ScanAppend(Outside(0), lead, obj[..k]);
    }
  }

  /** No proper prefix of an object, blanks in front or not, is a JSON text. */
  lemma ObjectPrefixesAreNotJson(lead: string, items: Items, p: string)
    requires Blank(lead) && Good(Obj(items))
    requires p <= lead + Text(Obj(items)) && |p| < |lead| + |Text(Obj(items))|
    ensures !IsJsonText(p)
  {
    ObjectPrefixScan(lead, items, p);
    hide Scan, Blank;
    if IsJsonText(p) {
      JsonTextScan(p);
    }
  }
}
