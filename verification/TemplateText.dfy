// The descriptor printer: the text it produces is the rendering of the template tree,
// and the text determines the pieces.
module TemplateText {
  import opened Basics
  import opened Template

  function Digit(d: nat): char
    requires d < 10
  {
    ('0' as int + d) as char
  }

  function Decimal(n: nat): string {
    if n < 10 then [Digit(n)] else Decimal(n / 10) + [Digit(n % 10)]
  }

  function Join(keys: seq<string>): string {
    if keys == [] then ""
    else if |keys| == 1 then keys[0]
    else keys[0] + ("," + Join(keys[1..]))
  }

  function OlderTail(): string {
    ")),and_v(v:older(" + Decimal(RECOVERY_TIMELOCK_NSEQUENCE) + "),multi(" + Decimal(RECOVERY_THRESHOLD) + ","
  }

  /** The unchecksummed descriptor string. */
  function VaultDescriptorString(user: string, threshold: nat, nodes: seq<string>, recovery: seq<string>): string {
    "wsh(or_i(and_v(v:pk(" + (user + ("),multi(" + (Decimal(threshold) + ("," +
      (Join(nodes) + (OlderTail() + (Join(recovery) + "))))")))))))
  }

  /** Reading digits back by their positional value. */
  function ReadDecimal(s: string): int {
    if s == "" then 0 else 10 * ReadDecimal(s[..|s| - 1]) + (s[|s| - 1] as int - '0' as int)
  }

  /** Numbers print as their plain decimals: digits only, no leading zero, and reading them
      back gives the number. */
  lemma {:induction false} DecimalReadsBack(n: nat)
    ensures Decimal(n) != "" && ReadDecimal(Decimal(n)) == n
    ensures forall i :: 0 <= i < |Decimal(n)| ==> '0' <= Decimal(n)[i] <= '9'
    ensures Decimal(n)[0] == '0' ==> n == 0
  {
    var s := Decimal(n);
    if n < 10 {
      assert s[..0] == "";
    } else {
      DecimalReadsBack(n / 10);
      assert s[..|s| - 1] == Decimal(n / 10);
    }
  }

  lemma OneMoreDigit(n: nat, front: string)
    requires n >= 10 && Decimal(n / 10) == front
    ensures |Decimal(n)| == |front| + 1 && Decimal(n)[..|front|] == front
    ensures Decimal(n)[|front|] as int == '0' as int + n % 10
  {}

  lemma LockText()
    ensures Decimal(4224679) == "4224679" && Decimal(2) == "2"
  {
    assert Decimal(4) == "4";
    OneMoreDigit(42, "4");
    OneMoreDigit(422, "42");
    OneMoreDigit(4224, "422");
    OneMoreDigit(42246, "4224");
    OneMoreDigit(422467, "42246");
    OneMoreDigit(4224679, "422467");
  }

  /** The fixed middle of every descriptor: the raw time-lock argument and the 2 of 2-of-3. */
  lemma OlderTailText()
    ensures OlderTail() == ")),and_v(v:older(4224679),multi(2,"
  {
    LockText();
  }

  // ----- the printer and the tree

  function KeyTexts(keys: seq<Key>): seq<string> {
    seq(|keys|, i requires 0 <= i < |keys| => keys[i].text)
  }

  /** A fragment written as wrapper letters; check over a plain key is written pk instead. */
  predicate Wrapped(t: Terminal) {
    t.Verify? || t.DupIf? || (t.Check? && !t.sub.PkK?)
  }

  function Head(t: Terminal): string {
    match t
    case True => "1"
    case False => "0"
    case PkK(_) => "pk_k("
    case PkH(_) => "pk_h("
    case Older(_) => "older("
    case Check(sub) => if sub.PkK? then "pk(" else "c"
    case Verify(_) => "v"
    case DupIf(_) => "d"
    case AndV(_, _) => "and_v("
    case AndB(_, _) => "and_b("
    case OrB(_, _) => "or_b("
    case OrD(_, _) => "or_d("
    case OrI(_, _) => "or_i("
    case Multi(_, _) => "multi("
  }

  /** Miniscript's notation, with pk for a checked key as its one abbreviation. */
  function Render(t: Terminal): string
    decreases t, 1
  {
    Head(t) + Tail(t)
  }

  function Tail(t: Terminal): string
    decreases t, 0
  {
    match t
    case True => ""
    case False => ""
    case PkK(key) => key.text + ")"
    case PkH(key) => key.text + ")"
    case Older(n) => Decimal(n) + ")"
    case Check(sub) => if sub.PkK? then sub.key.text + ")" else Unwrapped(sub)
    case Verify(sub) => Unwrapped(sub)
    case DupIf(sub) => Unwrapped(sub)
    case AndV(l, r) => Pair(Render(l), Render(r))
    case AndB(l, r) => Pair(Render(l), Render(r))
    case OrB(l, r) => Pair(Render(l), Render(r))
    case OrD(l, r) => Pair(Render(l), Render(r))
    case OrI(l, r) => Pair(Render(l), Render(r))
    case Multi(k, keys) => Decimal(k) + ("," + (Join(KeyTexts(keys)) + ")"))
  }

  /** What follows a wrapper letter: more letters, or a colon and the fragment. */
  function Unwrapped(t: Terminal): string
    decreases t, 2
  {
    if Wrapped(t) then Render(t) else ":" + Render(t)
  }

  function Pair(l: string, r: string): string { l + ("," + (r + ")")) }

  function RenderDescriptor(d: Descriptor): string {
    match d
    case Wsh(inner) => "wsh(" + (RenderInner(inner) + ")")
    case Sh(inner) => "sh(" + (RenderInner(inner) + ")")
    case Wpkh(key) => "wpkh(" + (key.text + ")")
    case Tr(key) => "tr(" + (key.text + ")")
  }

  function RenderInner(inner: WshInner): string {
    match inner
    case Ms(root) => Render(root)
    case SortedMulti(k, keys) => "sortedmulti(" + (Decimal(k) + ("," + (Join(KeyTexts(keys)) + ")")))
  }

  function NormalBranch(u: string, t: string, j: string): string {
    "and_v(v:pk(" + (u + ("),multi(" + (t + ("," + (j + "))")))))
  }

  function RecoveryBranch(o: string, t: string, j: string): string {
    "and_v(v:older(" + (o + ("),multi(" + (t + ("," + (j + "))")))))
  }

  lemma Verified(t: Terminal)
    requires !Wrapped(t)
    ensures Render(Verify(t)) == "v" + (":" + Render(t))
  {
    assert Tail(Verify(t)) == Unwrapped(t);
    assert Render(Verify(t)) == Head(Verify(t)) + Tail(Verify(t));
  }

  lemma Conjoined(l: Terminal, r: Terminal)
    ensures Render(AndV(l, r)) == "and_v(" + (Render(l) + ("," + (Render(r) + ")")))
  {
    assert Tail(AndV(l, r)) == Pair(Render(l), Render(r));
  }

  lemma RenderNormal(user: Key, t: nat, keys: seq<Key>)
    ensures Render(AndV(Verify(Check(PkK(user))), Multi(t, keys)))
      == NormalBranch(user.text, Decimal(t), Join(KeyTexts(keys)))
  {
    var pk, left, right := Check(PkK(user)), Verify(Check(PkK(user))), Multi(t, keys);
    assert Tail(pk) == user.text + ")" && Render(pk) == "pk(" + Tail(pk);
    Verified(pk);
    Conjoined(left, right);
    assert Render(right) == "multi(" + Tail(right);
    BranchText("pk(", user.text, Decimal(t), Join(KeyTexts(keys)));
  }

  lemma RenderRecovery(lock: u32, t: nat, keys: seq<Key>)
    ensures Render(AndV(Verify(Older(lock)), Multi(t, keys)))
      == RecoveryBranch(Decimal(lock), Decimal(t), Join(KeyTexts(keys)))
  {
    var older, left, right := Older(lock), Verify(Older(lock)), Multi(t, keys);
    assert Tail(older) == Decimal(lock) + ")" && Render(older) == "older(" + Tail(older);
    Verified(older);
    Conjoined(left, right);
    assert Render(right) == "multi(" + Tail(right);
    BranchText("older(", Decimal(lock), Decimal(t), Join(KeyTexts(keys)));
  }

  lemma BranchText(head: string, u: string, t: string, j: string)
    ensures "and_v(" + (("v" + (":" + (head + (u + ")")))) + ("," + (("multi(" + (t + ("," + (j + ")")))) + ")")))
      == ("and_v(v:" + head) + (u + ("),multi(" + (t + ("," + (j + "))")))))
  {}

  /** The printed string of a set of pieces is the notation of the tree they build. */
  lemma PrinterRendersTemplate(v: VaultTemplate)
    requires v.recoveryTimelock == RECOVERY_TIMELOCK_NSEQUENCE
    ensures RenderDescriptor(Build(v)) ==
      VaultDescriptorString(v.userKey.text, v.threshold, KeyTexts(v.nodeKeys), KeyTexts(v.recoveryKeys))
  {
    var root := Build(v).inner.root;
    assert Tail(root) == Pair(Render(root.left), Render(root.right)) && Render(root) == "or_i(" + Tail(root);
    RenderNormal(v.userKey, v.threshold, v.nodeKeys);
    RenderRecovery(v.recoveryTimelock, RECOVERY_THRESHOLD, v.recoveryKeys);
    WholeText(v.userKey.text, Decimal(v.threshold), Join(KeyTexts(v.nodeKeys)),
              Decimal(v.recoveryTimelock), Decimal(RECOVERY_THRESHOLD), Join(KeyTexts(v.recoveryKeys)));
  }

  lemma WholeText(u: string, t: string, j: string, o: string, k: string, r: string)
    ensures
      "wsh(" + (("or_i(" + (NormalBranch(u, t, j) + ("," + (RecoveryBranch(o, k, r) + ")")))) + ")") ==
        "wsh(or_i(and_v(v:pk(" + (u + ("),multi(" + (t + ("," +
          (j + (")),and_v(v:older(" + o + "),multi(" + k + "," + (r + "))))")))))))
  {
    var a, b := u + ("),multi(" + (t + ("," + j))), o + ("),multi(" + (k + ("," + r)));
    ListText(u, t, j, "))");
    ListText(o, k, r, "))");
    OuterText(a, b);
    ListText(u, t, j, (")),and_v(v:older(" + o + "),multi(" + k + ",") + (r + "))))"));
    assert (")),and_v(v:older(" + o + "),multi(" + k + ",") + (r + "))))") == ")),and_v(v:older(" + (b + "))))");
  }

  lemma ListText(u: string, t: string, j: string, end: string)
    ensures u + ("),multi(" + (t + ("," + (j + end)))) == (u + ("),multi(" + (t + ("," + j)))) + end
  {}

  lemma OuterText(a: string, b: string)
    ensures "wsh(" + (("or_i(" + (("and_v(v:pk(" + (a + "))")) + ("," + (("and_v(v:older(" + (b + "))")) + ")")))) + ")")
      == "wsh(or_i(and_v(v:pk(" + (a + (")),and_v(v:older(" + (b + "))))")))
  {
    var tail := ")),and_v(v:older(" + (b + ")))");
    InnerText(a, b);
    Assoc("or_i(", "and_v(v:pk(" + (a + tail), ")");
    Assoc("and_v(v:pk(", a + tail, ")");
    Assoc(a, tail, ")");
    Assoc(")),and_v(v:older(", b + ")))", ")");
    Assoc(b, ")))", ")");
  }

  lemma InnerText(a: string, b: string)
    ensures ("and_v(v:pk(" + (a + "))")) + ("," + (("and_v(v:older(" + (b + "))")) + ")"))
      == "and_v(v:pk(" + (a + (")),and_v(v:older(" + (b + ")))")))
  {
    var rest := "," + (("and_v(v:older(" + (b + "))")) + ")");
    Assoc("and_v(v:pk(", a + "))", rest);
    Assoc(a, "))", rest);
    Assoc("and_v(v:older(", b + "))", ")");
    Assoc(b, "))", ")");
    assert "))" + rest == ")),and_v(v:older(" + (b + ")))");
  }

  // ----- the text determines the pieces

  predicate Delimiter(c: char) { c in {',', '(', ')'} }

  /** A key expression free of comma and parentheses. */
  predicate Clean(s: string) { forall i :: 0 <= i < |s| ==> !Delimiter(s[i]) }

  predicate AllClean(keys: seq<string>) { forall i :: 0 <= i < |keys| ==> Clean(keys[i]) }

  /** No keys at all and one empty key print alike; this picks one of the two. */
  function Canonical(keys: seq<string>): seq<string> {
    if keys == [] then [""] else keys
  }

  lemma Assoc(a: string, b: string, c: string)
    ensures (a + b) + c == a + (b + c)
  {}

  lemma DropPrefix(a: string, x: string, y: string)
    requires a + x == a + y
    ensures x == y
  {
    assert (a + x)[|a|..] == x && (a + y)[|a|..] == y;
  }

  function WordLength(s: string): nat {
    if s == "" || Delimiter(s[0]) then 0 else 1 + WordLength(s[1..])
  }

  /** A clean word ends where the first delimiter starts. */
  lemma {:induction false} WordEnds(x: string, b: string)
    requires Clean(x) && b != "" && Delimiter(b[0])
    ensures WordLength(x + b) == |x|
  {
    if x == "" {
      assert x + b == b;
    } else {
      assert (x + b)[1..] == x[1..] + b;
      WordEnds(x[1..], b);
    }
  }

  lemma CleanSplit(x: string, b: string, y: string, c: string)
    requires Clean(x) && Clean(y)
    requires b != "" && c != "" && Delimiter(b[0]) && Delimiter(c[0])
    requires x + b == y + c
    ensures x == y && b == c
  {
    WordEnds(x, b);
    WordEnds(y, c);
    assert x == (x + b)[..|x|] == (y + c)[..|x|] == y;
    DropPrefix(x, b, c);
  }

  /** What follows the first key of a joined list and its terminator. */
  function Rest(keys: seq<string>, end: string): string
    requires keys != []
  {
    if |keys| == 1 then end else "," + (Join(keys[1..]) + end)
  }

  lemma JoinHead(keys: seq<string>, end: string)
    requires keys != []
    ensures Join(keys) + end == keys[0] + Rest(keys, end)
  {}

  lemma {:induction false} JoinSplit(a: seq<string>, x: string, b: seq<string>, y: string)
    requires AllClean(a) && AllClean(b) && a != [] && b != []
    requires x != "" && y != "" && x[0] == ')' && y[0] == ')'
    requires Join(a) + x == Join(b) + y
    ensures a == b && x == y
    decreases |a|
  {
    JoinHead(a, x);
    JoinHead(b, y);
    CleanSplit(a[0], Rest(a, x), b[0], Rest(b, y));
    assert Rest(a, x)[0] == (if |a| == 1 then ')' else ',');
    assert Rest(b, y)[0] == (if |b| == 1 then ')' else ',');
    assert |a| == 1 <==> |b| == 1;
    if |a| > 1 {
      DropPrefix(",", Join(a[1..]) + x, Join(b[1..]) + y);
      JoinSplit(a[1..], x, b[1..], y);
      assert a == [a[0]] + a[1..] && b == [b[0]] + b[1..];
    }
  }

  lemma {:induction false} DecimalIsClean(n: nat)
    ensures Clean(Decimal(n)) && Decimal(n) != ""
  {
    if n >= 10 { DecimalIsClean(n / 10); }
  }

  lemma {:induction false} DecimalInjective(m: nat, n: nat)
    requires Decimal(m) == Decimal(n)
    ensures m == n
  {
    DecimalIsClean(m / 10);
    DecimalIsClean(n / 10);
    var a, b := Decimal(m), Decimal(n);
    assert a[|a| - 1] == Digit(m % 10) && b[|b| - 1] == Digit(n % 10);
    assert m % 10 == n % 10;
    assert (m < 10 <==> |a| == 1) && (n < 10 <==> |b| == 1);
    if m >= 10 {
      assert a[..|a| - 1] == Decimal(m / 10) && b[..|b| - 1] == Decimal(n / 10);
      DecimalInjective(m / 10, n / 10);
    }
  }

  /** Two tuples print the same text exactly when they are the same tuple, up to the one
      ambiguity of an empty list against a single empty key. */
  lemma PrinterInjective(
    u1: string, t1: nat, n1: seq<string>, r1: seq<string>,
    u2: string, t2: nat, n2: seq<string>, r2: seq<string>)
    requires Clean(u1) && AllClean(n1) && AllClean(r1)
    requires Clean(u2) && AllClean(n2) && AllClean(r2)
    ensures VaultDescriptorString(u1, t1, n1, r1) == VaultDescriptorString(u2, t2, n2, r2) <==>
      u1 == u2 && t1 == t2 && Canonical(n1) == Canonical(n2) && Canonical(r1) == Canonical(r2)
  {
    var c1, c2, d1, d2 := Canonical(n1), Canonical(n2), Canonical(r1), Canonical(r2);
    assert Join(c1) == Join(n1) && Join(c2) == Join(n2) && Join(d1) == Join(r1) && Join(d2) == Join(r2);
    if VaultDescriptorString(u1, t1, n1, r1) == VaultDescriptorString(u2, t2, n2, r2) {
      var end1, end2 := Join(d1) + "))))", Join(d2) + "))))";
      var tail1, tail2 := OlderTail() + end1, OlderTail() + end2;
      var list1, list2 := Join(c1) + tail1, Join(c2) + tail2;
      var count1, count2 := Decimal(t1) + ("," + list1), Decimal(t2) + ("," + list2);
      DropPrefix("wsh(or_i(and_v(v:pk(", u1 + ("),multi(" + count1), u2 + ("),multi(" + count2));
      CleanSplit(u1, "),multi(" + count1, u2, "),multi(" + count2);
      DropPrefix("),multi(", count1, count2);
      DecimalIsClean(t1);
      DecimalIsClean(t2);
      CleanSplit(Decimal(t1), "," + list1, Decimal(t2), "," + list2);
      DecimalInjective(t1, t2);
      DropPrefix(",", list1, list2);
      assert OlderTail()[0] == ')';
      JoinSplit(c1, tail1, c2, tail2);
      DropPrefix(OlderTail(), end1, end2);
      JoinSplit(d1, "))))", d2, "))))");
    }
  }

  /** Nonempty keys are never ambiguous: distinct pieces print distinct strings. */
  lemma ValidPiecesPrintApart(v: VaultTemplate, w: VaultTemplate)
    requires Valid(v) && Valid(w) && |v.nodeKeys| > 0 && |w.nodeKeys| > 0
    requires forall k :: k in AllKeys(v) + AllKeys(w) ==> Clean(k.text)
    requires VaultDescriptorString(v.userKey.text, v.threshold, KeyTexts(v.nodeKeys), KeyTexts(v.recoveryKeys))
      == VaultDescriptorString(w.userKey.text, w.threshold, KeyTexts(w.nodeKeys), KeyTexts(w.recoveryKeys))
    ensures v == w
  {
    CleanKeys(v);
    CleanKeys(w);
    PrinterInjective(v.userKey.text, v.threshold, KeyTexts(v.nodeKeys), KeyTexts(v.recoveryKeys),
                     w.userKey.text, w.threshold, KeyTexts(w.nodeKeys), KeyTexts(w.recoveryKeys));
    SameTexts(v.nodeKeys, w.nodeKeys);
    SameTexts(v.recoveryKeys, w.recoveryKeys);
  }

  lemma CleanKeys(v: VaultTemplate)
    requires Valid(v)
    requires forall k :: k in AllKeys(v) ==> Clean(k.text)
    ensures Clean(v.userKey.text) && AllClean(KeyTexts(v.nodeKeys)) && AllClean(KeyTexts(v.recoveryKeys))
    ensures v.userKey.derPaths == 0 && Definite(v.nodeKeys) && Definite(v.recoveryKeys)
  {
    var all, n := AllKeys(v), |v.nodeKeys|;
    assert all[0] == v.userKey;
    forall i | 0 <= i < n ensures Clean(v.nodeKeys[i].text) && v.nodeKeys[i].derPaths == 0 {
      assert all[1 + i] == v.nodeKeys[i];
    }
    forall i | 0 <= i < |v.recoveryKeys|
      ensures Clean(v.recoveryKeys[i].text) && v.recoveryKeys[i].derPaths == 0
    {
      assert all[1 + n + i] == v.recoveryKeys[i];
    }
  }

  lemma SameTexts(a: seq<Key>, b: seq<Key>)
    requires Definite(a) && Definite(b) && KeyTexts(a) == KeyTexts(b)
    ensures a == b
  {
    assert |a| == |KeyTexts(a)| == |KeyTexts(b)| == |b|;
    forall i | 0 <= i < |a| ensures a[i] == b[i] {
      assert KeyTexts(a)[i] == KeyTexts(b)[i];
    }
  }

  /** The ambiguity is real: printing no node keys and printing one empty key collide. */
  lemma EmptyListCollides(user: string, t: nat, recovery: seq<string>)
    ensures VaultDescriptorString(user, t, [], recovery) == VaultDescriptorString(user, t, [""], recovery)
  {}

  // ----- the text determines the tree

  /** Key expressions free of delimiters, each text standing for the paths it says, and no
      empty key list. */
  predicate NamedKey(key: Key, paths: string -> nat) {
    Clean(key.text) && key.derPaths == paths(key.text)
  }

  predicate NamedKeys(keys: seq<Key>, paths: string -> nat) {
    keys != [] && forall i :: 0 <= i < |keys| ==> NamedKey(keys[i], paths)
  }

  predicate Named(t: Terminal, paths: string -> nat) {
    match t
    case True => true
    case False => true
    case PkK(key) => NamedKey(key, paths)
    case PkH(key) => NamedKey(key, paths)
    case Older(_) => true
    case Check(sub) => Named(sub, paths)
    case Verify(sub) => Named(sub, paths)
    case DupIf(sub) => Named(sub, paths)
    case AndV(l, r) => Named(l, paths) && Named(r, paths)
    case AndB(l, r) => Named(l, paths) && Named(r, paths)
    case OrB(l, r) => Named(l, paths) && Named(r, paths)
    case OrD(l, r) => Named(l, paths) && Named(r, paths)
    case OrI(l, r) => Named(l, paths) && Named(r, paths)
    case Multi(_, keys) => NamedKeys(keys, paths)
  }

  predicate NamedDescriptor(d: Descriptor, paths: string -> nat) {
    match d
    case Wsh(Ms(root)) => Named(root, paths)
    case Wsh(SortedMulti(_, keys)) => NamedKeys(keys, paths)
    case Sh(Ms(root)) => Named(root, paths)
    case Sh(SortedMulti(_, keys)) => NamedKeys(keys, paths)
    case Wpkh(key) => NamedKey(key, paths)
    case Tr(key) => NamedKey(key, paths)
  }

  /** The fragments, numbered; a checked key is one of its own. */
  function Tag(t: Terminal): nat {
    match t
    case True => 0
    case False => 1
    case PkK(_) => 2
    case PkH(_) => 3
    case Older(_) => 4
    case Check(sub) => if sub.PkK? then 5 else 6
    case Verify(_) => 7
    case DupIf(_) => 8
    case AndV(_, _) => 9
    case AndB(_, _) => 10
    case OrB(_, _) => 11
    case OrD(_, _) => 12
    case OrI(_, _) => 13
    case Multi(_, _) => 14
  }

  function CharAt(s: string, i: nat): char { if i < |s| then s[i] else ' ' }

  /** Which fragment a text starts with, told from at most five characters. */
  function Told(s: string): nat {
    match CharAt(s, 0)
    case '1' => 0
    case '0' => 1
    case 'p' => if CharAt(s, 2) == '(' then 5 else if CharAt(s, 3) == 'k' then 2 else 3
    case 'c' => 6
    case 'v' => 7
    case 'd' => 8
    case 'a' => if CharAt(s, 4) == 'v' then 9 else 10
    case 'm' => 14
    case _ =>
      if CharAt(s, 1) == 'l' then 4 else if CharAt(s, 3) == 'b' then 11 else if CharAt(s, 3) == 'd' then 12 else 13
  }

  lemma CharAfter(h: string, x: string, i: nat)
    requires i < |h|
    ensures CharAt(h + x, i) == h[i]
  {}

  lemma HeadTells(t: Terminal, x: string)
    ensures Told(Head(t) + x) == Tag(t)
  {
    var h := Head(t);
    CharAfter(h, x, 0);
    if |h| >= 3 {
      CharAfter(h, x, 1);
      CharAfter(h, x, 2);
    }
    if |h| >= 5 {
      CharAfter(h, x, 3);
      CharAfter(h, x, 4);
    }
  }

  lemma SameTag(a: Terminal, b: Terminal)
    requires Tag(a) == Tag(b)
    ensures Head(a) == Head(b)
  {}

  /** No head is the beginning of another. */
  lemma HeadSplit(a: Terminal, b: Terminal, x: string, y: string)
    requires Render(a) + x == Render(b) + y
    ensures Tag(a) == Tag(b) && Tail(a) + x == Tail(b) + y
  {
    Assoc(Head(a), Tail(a), x);
    Assoc(Head(b), Tail(b), y);
    HeadTells(a, Tail(a) + x);
    HeadTells(b, Tail(b) + y);
    SameTag(a, b);
    DropPrefix(Head(a), Tail(a) + x, Tail(b) + y);
  }

  lemma KeySplit(k: Key, l: Key, x: string, y: string, paths: string -> nat)
    requires NamedKey(k, paths) && NamedKey(l, paths) && (k.text + ")") + x == (l.text + ")") + y
    ensures k == l && x == y
  {
    Assoc(k.text, ")", x);
    Assoc(l.text, ")", y);
    CleanSplit(k.text, ")" + x, l.text, ")" + y);
    DropPrefix(")", x, y);
  }

  lemma NumberSplit(m: nat, n: nat, x: string, y: string)
    requires x != "" && y != "" && Delimiter(x[0]) && Delimiter(y[0]) && Decimal(m) + x == Decimal(n) + y
    ensures m == n && x == y
  {
    DecimalIsClean(m);
    DecimalIsClean(n);
    CleanSplit(Decimal(m), x, Decimal(n), y);
    DecimalInjective(m, n);
  }

  lemma KeysSplit(a: seq<Key>, b: seq<Key>, x: string, y: string, paths: string -> nat)
    requires NamedKeys(a, paths) && NamedKeys(b, paths)
    requires x != "" && y != "" && x[0] == ')' && y[0] == ')'
    requires Join(KeyTexts(a)) + x == Join(KeyTexts(b)) + y
    ensures a == b && x == y
  {
    JoinSplit(KeyTexts(a), x, KeyTexts(b), y);
    assert |a| == |KeyTexts(a)| == |b|;
    forall i | 0 <= i < |a| ensures a[i] == b[i] {
      assert KeyTexts(a)[i] == KeyTexts(b)[i];
    }
  }

  lemma ThreeParts(a: string, b: string, x: string)
    ensures Pair(a, b) + x == a + ("," + (b + (")" + x)))
  {
    Assoc(a, "," + (b + ")"), x);
    Assoc(",", b + ")", x);
    Assoc(b, ")", x);
  }

  lemma MultiSplit(k: nat, a: seq<Key>, l: nat, b: seq<Key>, x: string, y: string, paths: string -> nat)
    requires NamedKeys(a, paths) && NamedKeys(b, paths)
    requires (Decimal(k) + ("," + (Join(KeyTexts(a)) + ")"))) + x == (Decimal(l) + ("," + (Join(KeyTexts(b)) + ")"))) + y
    ensures k == l && a == b && x == y
  {
    var j1, j2 := Join(KeyTexts(a)), Join(KeyTexts(b));
    ThreeParts(Decimal(k), j1, x);
    ThreeParts(Decimal(l), j2, y);
    NumberSplit(k, l, "," + (j1 + (")" + x)), "," + (j2 + (")" + y)));
    DropPrefix(",", j1 + (")" + x), j2 + (")" + y));
    KeysSplit(a, b, ")" + x, ")" + y, paths);
    DropPrefix(")", x, y);
  }

  lemma UnwrappedSplit(a: Terminal, b: Terminal, x: string, y: string)
    requires Unwrapped(a) + x == Unwrapped(b) + y
    ensures Render(a) + x == Render(b) + y
  {
    ColonTells(a, x);
    ColonTells(b, y);
    if !Wrapped(a) {
      Assoc(":", Render(a), x);
      Assoc(":", Render(b), y);
      DropPrefix(":", Render(a) + x, Render(b) + y);
    }
  }

  lemma ColonTells(t: Terminal, x: string)
    ensures CharAt(Unwrapped(t) + x, 0) == ':' <==> !Wrapped(t)
  {
    if Wrapped(t) {
      HeadTells(t, Tail(t) + x);
      Assoc(Head(t), Tail(t), x);
    }
  }

  function Size(t: Terminal): nat
    ensures Size(t) >= 1
  {
    match t
    case Check(sub) => 1 + Size(sub)
    case Verify(sub) => 1 + Size(sub)
    case DupIf(sub) => 1 + Size(sub)
    case AndV(l, r) => 1 + Size(l) + Size(r)
    case AndB(l, r) => 1 + Size(l) + Size(r)
    case OrB(l, r) => 1 + Size(l) + Size(r)
    case OrD(l, r) => 1 + Size(l) + Size(r)
    case OrI(l, r) => 1 + Size(l) + Size(r)
    case _ => 1
  }

  lemma {:induction false} PairSplit(
    l: Terminal, r: Terminal, m: Terminal, s: Terminal, x: string, y: string, paths: string -> nat)
    requires Named(l, paths) && Named(r, paths) && Named(m, paths) && Named(s, paths)
    requires Pair(Render(l), Render(r)) + x == Pair(Render(m), Render(s)) + y
    ensures l == m && r == s && x == y
    decreases Size(l) + Size(r)
  {
    var x2, y2 := ")" + x, ")" + y;
    ThreeParts(Render(l), Render(r), x);
    ThreeParts(Render(m), Render(s), y);
    RenderSplit(l, m, "," + (Render(r) + x2), "," + (Render(s) + y2), paths);
    DropPrefix(",", Render(r) + x2, Render(s) + y2);
    RenderSplit(r, s, x2, y2, paths);
    DropPrefix(")", x, y);
  }

  /** The notation is unambiguous: a text begins with the notation of at most one tree. */
  lemma {:induction false} RenderSplit(a: Terminal, b: Terminal, x: string, y: string, paths: string -> nat)
    requires Named(a, paths) && Named(b, paths) && Render(a) + x == Render(b) + y
    ensures a == b && x == y
    decreases Size(a)
  {
    HeadSplit(a, b, x, y);
    if Wrapped(a) {
      assert Wrapped(b) && Tail(a) == Unwrapped(a.sub) && Tail(b) == Unwrapped(b.sub);
      UnwrappedSplit(a.sub, b.sub, x, y);
      RenderSplit(a.sub, b.sub, x, y, paths);
    } else if Paired(a) {
      PairSplit(a.left, a.right, b.left, b.right, x, y, paths);
    } else {
      LeafSplit(a, b, x, y, paths);
    }
  }

  predicate Paired(t: Terminal) { t.AndV? || t.AndB? || t.OrB? || t.OrD? || t.OrI? }

  lemma LeafSplit(a: Terminal, b: Terminal, x: string, y: string, paths: string -> nat)
    requires Named(a, paths) && Named(b, paths) && !Wrapped(a) && !Paired(a)
    requires Tag(a) == Tag(b) && Tail(a) + x == Tail(b) + y
    ensures a == b && x == y
  {
    assert "" + x == x && "" + y == y;
    match a {
      case PkK(key) => KeySplit(key, b.key, x, y, paths);
      case PkH(key) => KeySplit(key, b.key, x, y, paths);
      case Check(sub) => KeySplit(sub.key, b.sub.key, x, y, paths);
      case Older(n) =>
        Assoc(Decimal(n), ")", x);
        Assoc(Decimal(b.blocks), ")", y);
        NumberSplit(n, b.blocks, ")" + x, ")" + y);
        DropPrefix(")", x, y);
      case Multi(k, keys) => MultiSplit(k, keys, b.k, b.keys, x, y, paths);
      case _ =>
    }
  }

  /** The validator inverts the printer: of all descriptors, the one whose notation is the
      printed string is the tree of the pieces printed, from which they are read back. */
  lemma PrintedMeansTemplate(v: VaultTemplate, d: Descriptor, paths: string -> nat)
    requires Valid(v) && NamedDescriptor(Build(v), paths) && NamedDescriptor(d, paths)
    ensures RenderDescriptor(d)
      == VaultDescriptorString(v.userKey.text, v.threshold, KeyTexts(v.nodeKeys), KeyTexts(v.recoveryKeys))
      <==> d == Build(v)
  {
    PrinterRendersTemplate(v);
    var root := Build(v).inner.root;
    var text := RenderDescriptor(Build(v));
    if RenderDescriptor(d) == text {
      assert text == "wsh(" + (Render(root) + ")");
      assert text[0] == 'w' && text[1] == 's';
      assert d.Wsh?;
      DropPrefix("wsh(", RenderInner(d.inner) + ")", Render(root) + ")");
      assert Render(root)[0] == 'o' && (Render(root) + ")")[0] == 'o';
      if d.inner.Ms? {
        RenderSplit(d.inner.root, root, ")", ")", paths);
      }
    }
  }
}
