/**
 * The password users the two config builders emit for the same settings: a map for mihomo
 * (`password_users`) and a list for sing-box (`password_clients_to_users`).
 */
module PasswordTables {
  import opened Prelude

  /** The string fields of a client; `None` is absent or not a string. */
  datatype Client = Client(name: Option<string>, email: Option<string>, password: Option<string>)

  datatype Settings = Settings(clients: Option<seq<Client>>, password: Option<string>)

  datatype User = User(name: string, password: string)

  // ----- decimal numerals

  lemma {:induction false} DecimalInjective(a: nat, b: nat)
    requires Decimal(a) == Decimal(b)
    ensures a == b
  {
    DecimalLength(a);
    DecimalLength(b);
    if a >= 10 && b >= 10 {
      var p, q := Decimal(a / 10), Decimal(b / 10);
      assert Decimal(a)[..|p|] == p && Decimal(b)[..|q|] == q;
      assert Decimal(a)[|p|] == ('0' as int + a % 10) as char && Decimal(b)[|q|] == ('0' as int + b % 10) as char;
      DecimalInjective(a / 10, b / 10);
    }
  }

  lemma DecimalLength(n: nat)
    ensures |Decimal(n)| >= 1
    ensures |Decimal(n)| == 1 <==> n < 10
  {
    if n >= 10 {
      DecimalLength(n / 10);
    }
  }

  function Generated(n: nat): string { "user" + Decimal(n) }

  // ----- the two tables

  /** `setting_str` with two keys: the first that holds a string, even an empty one. */
  function FirstString(a: Option<string>, b: Option<string>): Option<string> { if a.Some? then a else b }

  function NameOf(c: Client): string { FirstString(c.name, c.email).Or("") }

  function PasswordOf(c: Client): string { c.password.Or("") }

  /** The key of a client that comes after `n` others with a key. */
  function KeyFor(c: Client, n: nat): string {
    if NameOf(c) == "" then Generated(n + 1) else NameOf(c)
  }

  function Insert(table: map<string, string>, c: Client): map<string, string> {
    if PasswordOf(c) == "" then table
    else table[KeyFor(c, |table|) := PasswordOf(c)]
  }

  function Table(clients: seq<Client>): map<string, string> {
    if clients == [] then map[] else Insert(Table(clients[..|clients| - 1]), clients[|clients| - 1])
  }

  function MihomoUsers(s: Settings): map<string, string> {
    if s.clients.Some? then Table(s.clients.value)
    else if s.password.Or("") == "" then map[] else map["default" := s.password.value]
  }

  function SingBoxUsers(s: Settings): seq<User> {
    if s.clients.Some? then
      seq(|s.clients.value|, i requires 0 <= i < |s.clients.value| =>
        User(s.clients.value[i].name.Or(""), PasswordOf(s.clients.value[i])))
    else if s.password.Or("") == "" then [] else [User("", s.password.value)]
  }

  // ----- what each table admits

  ghost function AnyKey(table: map<string, string>): (k: string)
    requires table != map[]
    ensures k in table
  {
    var k :| k in table;
    k
  }

  /** A table's values, each as often as it occurs. */
  ghost function Values(table: map<string, string>): multiset<string> {
    if table == map[] then multiset{}
    else multiset{table[AnyKey(table)]} + Values(table - {AnyKey(table)})
  }

  lemma ValuesUnfold(table: map<string, string>)
    requires table != map[]
    ensures Values(table) == multiset{table[AnyKey(table)]} + Values(table - {AnyKey(table)})
  {
  }

  lemma {:induction false} ValuesRemove(table: map<string, string>, k: string)
    requires k in table
    ensures Values(table) == multiset{table[k]} + Values(table - {k})
    decreases |table|
  {
    hide Values, AnyKey;
    var first := AnyKey(table);
    ValuesUnfold(table);
    if first != k {
      ValuesRemove(table - {first}, k);
      ValuesRemove(table - {k}, first);
      var rest := Values(table - {first} - {k});
      assert table - {first} - {k} == table - {k} - {first};
      Swap(multiset{table[first]}, multiset{table[k]}, rest);
    }
  }

  lemma Swap(a: multiset<string>, b: multiset<string>, c: multiset<string>)
    ensures a + (b + c) == b + (a + c)
  {
  }

  lemma ValuesInsert(table: map<string, string>, k: string, v: string)
    requires k !in table
    ensures Values(table[k := v]) == Values(table) + multiset{v}
  {
    ValuesRemove(table[k := v], k);
    assert table[k := v] - {k} == table;
  }

  lemma {:induction false} ValuesCount(table: map<string, string>)
    ensures |Values(table)| == |table|
    decreases |table|
  {
    if table != map[] {
      ValuesCount(table - {AnyKey(table)});
    }
  }

  /** The non-empty passwords of a list of users. */
  function Passwords(users: seq<User>): seq<string> {
    if users == [] then []
    else
      Passwords(users[..|users| - 1]) +
      if users[|users| - 1].password != "" then [users[|users| - 1].password] else []
  }

  /** The non-empty passwords of the clients. */
  function Given(clients: seq<Client>): seq<string> {
    if clients == [] then []
    else
      Given(clients[..|clients| - 1]) +
      if PasswordOf(clients[|clients| - 1]) != "" then [PasswordOf(clients[|clients| - 1])] else []
  }

  /** The keys the mihomo table would use if none of them clashed. */
  function Keys(clients: seq<Client>): (keys: seq<string>)
    ensures |keys| == |Given(clients)|
  {
    if clients == [] then []
    else
      var front, last := Keys(clients[..|clients| - 1]), clients[|clients| - 1];
      if PasswordOf(last) == "" then front
      else front + [KeyFor(last, |front|)]
  }

  ghost predicate Distinct(keys: seq<string>) {
    forall i, j :: 0 <= i < j < |keys| ==> keys[i] != keys[j]
  }

  /** The table keeps every password exactly when its keys would not clash. */
  ghost predicate KeepsAll(clients: seq<Client>) {
    && |Table(clients)| <= |Given(clients)|
    && (|Table(clients)| == |Given(clients)| <==> Distinct(Keys(clients)))
    && (Distinct(Keys(clients)) ==>
          && (forall k :: k in Table(clients) <==> k in Keys(clients))
          && Values(Table(clients)) == multiset(Given(clients)))
  }

  lemma {:induction false} TableKeepsAll(clients: seq<Client>)
    ensures KeepsAll(clients)
  {
    if clients == [] {
      assert Distinct(Keys(clients));
    } else {
      var front, last := clients[..|clients| - 1], clients[|clients| - 1];
      TableKeepsAll(front);
      assert clients == front + [last];
      if PasswordOf(last) != "" {
        LastClient(front, last);
      } else {
        SkippedClient(front, last);
      }
      hide KeepsAll;
    }
  }

  lemma SkippedClient(front: seq<Client>, last: Client)
    requires PasswordOf(last) == "" && KeepsAll(front)
    ensures KeepsAll(front + [last])
  {
    assert (front + [last])[..|front|] == front;
  }

  lemma LastClient(front: seq<Client>, last: Client)
    requires PasswordOf(last) != "" && KeepsAll(front)
    ensures KeepsAll(front + [last])
  {
    var clients, table, keys := front + [last], Table(front), Keys(front);
    var key := KeyFor(last, |keys|);
    LastOfEach(front, last);
    hide KeyFor, PasswordOf, Values, Table, Given, Keys;
    if Distinct(keys) {
      FreshOrNot(table, keys, Given(front), key, PasswordOf(last));
    } else {
      assert Keys(clients)[..|keys|] == keys;
      assert !Distinct(Keys(clients));
    }
  }

  lemma LastOfEach(front: seq<Client>, last: Client)
    requires PasswordOf(last) != ""
    ensures Keys(front + [last]) == Keys(front) + [KeyFor(last, |Keys(front)|)]
    ensures Given(front + [last]) == Given(front) + [PasswordOf(last)]
    ensures Table(front + [last]) == Table(front)[KeyFor(last, |Table(front)|) := PasswordOf(last)]
    ensures |Table(front + [last])| <= |Table(front)| + 1
  {
    hide KeyFor, PasswordOf;
    var clients, table := front + [last], Table(front);
    assert clients[..|clients| - 1] == front;
    assert Table(clients).Keys == table.Keys + {KeyFor(last, |table|)};
  }

  lemma FreshOrNot(table: map<string, string>, keys: seq<string>, given: seq<string>, key: string, password: string)
    requires Distinct(keys) && |keys| == |given| == |table|
    requires forall k :: k in table <==> k in keys
    requires Values(table) == multiset(given)
    ensures Distinct(keys + [key]) <==> key !in table
    ensures |table[key := password]| == if key in table then |table| else |table| + 1
    ensures key !in table ==> Values(table[key := password]) == multiset(given + [password])
    ensures forall k :: k in table[key := password] <==> k in keys + [key]
  {
    DistinctAppend(keys, key);
    hide Values, Distinct;
    assert table[key := password].Keys == table.Keys + {key};
    if key !in table {
      ValuesInsert(table, key, password);
    }
  }

  lemma DistinctAppend(keys: seq<string>, key: string)
    requires Distinct(keys)
    ensures Distinct(keys + [key]) <==> key !in keys
  {
    if key in keys {
      var i :| 0 <= i < |keys| && keys[i] == key;
      assert (keys + [key])[i] == (keys + [key])[|keys|];
    }
  }

  lemma {:induction false} ListGivesAll(clients: seq<Client>, users: seq<User>)
    requires |users| == |clients|
    requires forall i :: 0 <= i < |users| ==> users[i].password == PasswordOf(clients[i])
    ensures Passwords(users) == Given(clients)
  {
    if clients != [] {
      ListGivesAll(clients[..|clients| - 1], users[..|users| - 1]);
    }
  }

  /**
   * The two builders admit the same non-empty passwords, each as often, if and only if the keys of
   * the mihomo map (explicit names, and "userN" for the N-th client with a password) do not clash.
   */
  lemma SamePasswords(s: Settings)
    ensures multiset(Passwords(SingBoxUsers(s))) == Values(MihomoUsers(s)) <==>
      (s.clients.Some? ==> Distinct(Keys(s.clients.value)))
  {
    if s.clients.Some? {
      var clients := s.clients.value;
      ListGivesAll(clients, SingBoxUsers(s));
      TableKeepsAll(clients);
      ValuesCount(Table(clients));
      assert |multiset(Given(clients))| == |Given(clients)|;
    } else if s.password.Or("") != "" {
      var p, table := s.password.value, MihomoUsers(s);
      ValuesInsert(map[], "default", p);
      assert table == map["default" := p];
      var users := SingBoxUsers(s);
      assert users[..|users| - 1] == [];
      assert Passwords(users) == [p];
    }
  }

  /** The name under which mihomo lists the `n`-th client with a password: name, else e-mail, else "user" and `n`. */
  lemma NamedExactly(c: Client, n: nat)
    requires n > 0
    ensures KeyFor(c, n - 1) ==
      match c.name
      case Some(name) => if name != "" then name else "user" + Decimal(n)
      case None => if c.email.Or("") != "" then c.email.value else "user" + Decimal(n)
  {
  }

  /** With keys that do not clash, every client with a password is listed under its key, with that password. */
  lemma {:induction false} MihomoListsEveryone(clients: seq<Client>, i: nat)
    requires i < |clients| && PasswordOf(clients[i]) != "" && Distinct(Keys(clients))
    ensures Get(Table(clients), KeyFor(clients[i], |Keys(clients[..i])|)) == Some(PasswordOf(clients[i]))
  {
    var front, last := clients[..|clients| - 1], clients[|clients| - 1];
    var keys := Keys(front);
    assert clients == front + [last];
    TableKeepsAll(front);
    if PasswordOf(last) != "" {
      LastOfEach(front, last);
    }
    PrefixDistinct(front, last);
    assert |Table(front)| == |keys|;
    hide KeyFor, PasswordOf;
    if i < |front| {
      MihomoListsEveryone(front, i);
      assert front[..i] == clients[..i];
      var key := KeyFor(clients[i], |Keys(clients[..i])|);
      if PasswordOf(last) != "" {
        assert key in keys;
        var k :| 0 <= k < |keys| && keys[k] == key;
        hide Keys, Table;
        assert Keys(clients)[k] == key && Keys(clients)[|keys|] == KeyFor(last, |keys|);
      }
    } else {
      assert clients[..i] == front;
      hide Keys, Table;
    }
  }

  lemma PrefixDistinct(front: seq<Client>, last: Client)
    requires Distinct(Keys(front + [last]))
    ensures Distinct(Keys(front))
  {
    assert (front + [last])[..|front|] == front;
    var keys, more := Keys(front), Keys(front + [last]);
    assert more == keys || more == keys + [KeyFor(last, |keys|)];
    hide Keys, KeyFor;
    assert forall i :: 0 <= i < |keys| ==> more[i] == keys[i];
  }

  /** sing-box lists every client in order, by name, whether it has a password or not. */
  lemma SingBoxListsEveryone(s: Settings, i: nat)
    requires s.clients.Some? && i < |s.clients.value|
    ensures |SingBoxUsers(s)| == |s.clients.value|
    ensures var c := s.clients.value[i];
      SingBoxUsers(s)[i] == User(
        if c.name.Some? then c.name.value else "", if c.password.Some? then c.password.value else "")
  {
  }

  /** Without clients both fall back on the password of the settings, mihomo under the name "default". */
  lemma FallbackUsers(s: Settings)
    requires s.clients.None?
    ensures s.password.None? || s.password.value == "" ==> MihomoUsers(s) == map[] && SingBoxUsers(s) == []
    ensures s.password.Some? && s.password.value != "" ==>
      MihomoUsers(s) == map["default" := s.password.value] && SingBoxUsers(s) == [User("", s.password.value)]
  {
  }

  /** Two clients of one name: sing-box admits both passwords, mihomo only the second. */
  lemma ClashingNamesExample()
    ensures var clients := [Client(Some("a"), None, Some("one")), Client(Some("a"), None, Some("two"))];
      var s := Settings(Some(clients), None);
      SingBoxUsers(s) == [User("a", "one"), User("a", "two")] && MihomoUsers(s) == map["a" := "two"]
  {
    var clients := [Client(Some("a"), None, Some("one")), Client(Some("a"), None, Some("two"))];
    assert clients[..1] == [clients[0]] && clients[..1][..0] == [];
    assert Table(clients[..1]) == map["a" := "one"];
  }

  /** Explicit names are distinct, and none reads "user" followed by a number. */
  ghost predicate PlainNames(clients: seq<Client>) {
    && (forall i, j | 0 <= i < j < |clients| && PasswordOf(clients[i]) != "" && PasswordOf(clients[j]) != "" ::
          NameOf(clients[i]) != "" ==> NameOf(clients[i]) != NameOf(clients[j]))
    && (forall i, n: nat :: 0 <= i < |clients| ==> NameOf(clients[i]) != Generated(n))
  }

  /** Where a key comes from. */
  lemma {:induction false} KeyOrigin(clients: seq<Client>, k: nat) returns (i: nat)
    requires k < |Keys(clients)|
    ensures i < |clients| && PasswordOf(clients[i]) != ""
    ensures Keys(clients)[k] == KeyFor(clients[i], k)
    ensures |Keys(clients[..i])| == k
  {
    hide KeyFor, PasswordOf;
    var front := clients[..|clients| - 1];
    if k < |Keys(front)| {
      i := KeyOrigin(front, k);
      assert front[..i] == clients[..i];
    } else {
      i := |clients| - 1;
    }
  }

  lemma GeneratedInjective(a: nat, b: nat)
    requires Generated(a) == Generated(b)
    ensures a == b
  {
    assert Generated(a)[4..] == Decimal(a) && Generated(b)[4..] == Decimal(b);
    DecimalInjective(a, b);
  }

  lemma PlainKeysDiffer(clients: seq<Client>, a: nat, b: nat, i: nat, j: nat)
    requires PlainNames(clients) && a != b && i < j < |clients|
    requires PasswordOf(clients[i]) != "" && PasswordOf(clients[j]) != ""
    ensures KeyFor(clients[i], a) != KeyFor(clients[j], b)
  {
    hide Generated, NameOf, PasswordOf;
    if NameOf(clients[i]) == "" && NameOf(clients[j]) == "" && Generated(a + 1) == Generated(b + 1) {
      GeneratedInjective(a + 1, b + 1);
    }
  }

  /** The everyday case: names that do not look generated never clash, by injectivity of decimal printing. */
  lemma PlainNamesSuffice(clients: seq<Client>)
    requires PlainNames(clients)
    ensures Distinct(Keys(clients))
  {
    hide PlainNames, KeyFor, PasswordOf;
    forall a, b | 0 <= a < b < |Keys(clients)|
      ensures Keys(clients)[a] != Keys(clients)[b]
    {
      var i := KeyOrigin(clients, a);
      var j := KeyOrigin(clients, b);
      hide Keys;
      if i < j {
        PlainKeysDiffer(clients, a, b, i, j);
      } else if j < i {
        PlainKeysDiffer(clients, b, a, j, i);
      }
    }
  }

  method PasswordUsers(s: Settings) returns (table: map<string, string>)
    ensures table == MihomoUsers(s)
  {
    table := map[];
    if s.clients.Some? {
      var clients := s.clients.value;
      for i := 0 to |clients|
        invariant table == Table(clients[..i])
      {
        assert clients[..i + 1][..i] == clients[..i];
        var c := clients[i];
        var password := PasswordOf(c);
        if password == "" {
          continue;
        }
        var name := NameOf(c);
        var key := if name == "" then Generated(|table| + 1) else name;
        assert key == KeyFor(c, |table|);
        table := table[key := password];
      }
      assert clients[..|clients|] == clients;
    } else {
      var password := s.password.Or("");
      if password != "" {
        table := table["default" := password];
      }
    }
  }
}
