// The vault descriptor template: the miniscript tree, the shape validator, and what
// an accepted tree means as a spending condition.
module Template {
  import opened Basics

  /** A descriptor key: its text, and how many derivation paths it stands for (none
      when it is one concrete public key). */
  datatype Key = Key(text: string, derPaths: nat)

  /** The miniscript fragments; the template uses PkK, Check, Verify, Older, Multi,
      AndV and OrI, the rest are what it must be told apart from. */
  datatype Terminal =
    | True | False
    | PkK(key: Key) | PkH(key: Key)
    | Older(blocks: u32)
    | Check(sub: Terminal) | Verify(sub: Terminal) | DupIf(sub: Terminal)
    | AndV(left: Terminal, right: Terminal) | AndB(left: Terminal, right: Terminal)
    | OrB(left: Terminal, right: Terminal) | OrD(left: Terminal, right: Terminal)
    | OrI(left: Terminal, right: Terminal)
    | Multi(k: nat, keys: seq<Key>)

  datatype WshInner = Ms(root: Terminal) | SortedMulti(k: nat, keys: seq<Key>)

  datatype Descriptor = Wsh(inner: WshInner) | Wpkh(key: Key) | Sh(inner: WshInner) | Tr(key: Key)

  const RECOVERY_TIMELOCK_UNITS: u16 := 30375
  const RECOVERY_TIMELOCK_NSEQUENCE: u32 := 4_224_679
  const RECOVERY_THRESHOLD: nat := 2
  const RECOVERY_KEYS: nat := 3

  const TYPE_FLAG: nat := 0x40_0000
  const DISABLE_FLAG: nat := 0x8000_0000

  datatype VaultTemplate = VaultTemplate(
    userKey: Key,
    threshold: nat,
    nodeKeys: seq<Key>,
    recoveryKeys: seq<Key>,
    recoveryTimelock: u32)

  datatype TemplateError =
    | OffTemplate | WrongTimelock | WrongRecoveryKeyset | RangedKey | DuplicateKey | ZeroThreshold

  /** The template tree carrying the given pieces. */
  function Build(v: VaultTemplate): Descriptor {
    Wsh(Ms(OrI(
      AndV(Verify(Check(PkK(v.userKey))), Multi(v.threshold, v.nodeKeys)),
      AndV(Verify(Older(v.recoveryTimelock)), Multi(RECOVERY_THRESHOLD, v.recoveryKeys)))))
  }

  /** Any tree of the template's shape, whatever its numbers and keys. */
  function Tree(user: Key, t: nat, nodes: seq<Key>, lock: u32, k: nat, recovery: seq<Key>): Descriptor {
    Wsh(Ms(OrI(AndV(Verify(Check(PkK(user))), Multi(t, nodes)), AndV(Verify(Older(lock)), Multi(k, recovery)))))
  }

  function AllKeys(v: VaultTemplate): seq<Key> {
    [v.userKey] + v.nodeKeys + v.recoveryKeys
  }

  predicate Definite(keys: seq<Key>) {
    forall i :: 0 <= i < |keys| ==> keys[i].derPaths == 0
  }

  predicate Distinct(keys: seq<Key>) {
    forall i, j :: 0 <= i < j < |keys| ==> keys[i].text != keys[j].text
  }

  predicate Valid(v: VaultTemplate) {
    && Definite(AllKeys(v))
    && Distinct(AllKeys(v))
    && v.threshold >= 1
    && |v.recoveryKeys| == RECOVERY_KEYS
    && v.recoveryTimelock == RECOVERY_TIMELOCK_NSEQUENCE
  }

  /** Everything about the pieces is right except that some key is used twice. */
  predicate OnlyRepeatsKeys(v: VaultTemplate) {
    && v.recoveryTimelock == RECOVERY_TIMELOCK_NSEQUENCE
    && |v.recoveryKeys| == RECOVERY_KEYS
    && Definite(AllKeys(v)) && !Distinct(AllKeys(v))
  }

  /** Key i is the first at fault: ranged, or the text of an earlier key. */
  predicate FirstFault(keys: seq<Key>, i: int) {
    && 0 <= i < |keys| && Definite(keys[..i]) && Distinct(keys[..i])
    && (keys[i].derPaths != 0 || exists j :: 0 <= j < i && keys[j].text == keys[i].text)
  }

  /** Walks the keys with a set of the texts seen so far, as the source does. */
  method CheckKeys(keys: seq<Key>) returns (r: Outcome<TemplateError>)
    ensures r.Pass? <==> Definite(keys) && Distinct(keys)
    ensures r.Fail? ==> r.error in {RangedKey, DuplicateKey}
    ensures r.Fail? ==> exists i :: FirstFault(keys, i) && (r.error == RangedKey <==> keys[i].derPaths != 0)
  {
    var seen: set<string> := {};
    for i := 0 to |keys|
      invariant seen == set k | 0 <= k < i :: keys[k].text
      invariant Definite(keys[..i]) && Distinct(keys[..i])
    {
      if keys[i].derPaths != 0 {
        assert FirstFault(keys, i);
        return Fail(RangedKey);
      }
      if keys[i].text in seen {
        var k :| 0 <= k < i && keys[k].text == keys[i].text;
        assert FirstFault(keys, i);
        return Fail(DuplicateKey);
      }
      seen := seen + {keys[i].text};
      assert forall k :: 0 <= k < i ==> keys[..i + 1][k] == keys[..i][k];
    }
    assert keys[..|keys|] == keys;
    return Pass;
  }

  /** Accepts exactly the trees built from valid pieces, and returns exactly the pieces,
      in order, that built the tree. A wrong lock or a repeated key is refused by name. */
  method ParseVaultTemplate(d: Descriptor) returns (r: Result<VaultTemplate, TemplateError>)
    ensures r.Ok? ==> d == Build(r.value) && Valid(r.value)
    ensures forall v: VaultTemplate :: Valid(v) && Build(v) == d ==> r == Ok(v)
    ensures r == Err(OffTemplate) <==> forall user, t, nodes, lock, k, recovery :: d != Tree(user, t, nodes, lock, k, recovery)
    ensures forall user, t, nodes, lock, k, recovery :: d == Tree(user, t, nodes, lock, k, recovery) ==>
      && (r == Err(WrongTimelock) <==> lock != 4_224_679)
      && (r == Err(WrongRecoveryKeyset) <==> lock == 4_224_679 && !(k == 2 && |recovery| == 3))
      && (r == Err(ZeroThreshold) <==>
        && lock == 4_224_679 && k == 2 && |recovery| == 3
        && Definite([user] + nodes + recovery) && Distinct([user] + nodes + recovery) && t == 0)
    ensures forall v: VaultTemplate :: Build(v) == d && OnlyRepeatsKeys(v) ==> r == Err(DuplicateKey)
  {
    if !(d.Wsh? && d.inner.Ms? && d.inner.root.OrI?) { return Err(OffTemplate); }
    var normal, recovery := d.inner.root.left, d.inner.root.right;
    if !(normal.AndV? && normal.left.Verify? && normal.left.sub.Check? && normal.left.sub.sub.PkK?) {
      return Err(OffTemplate);
    }
    if !normal.right.Multi? { return Err(OffTemplate); }
    if !(recovery.AndV? && recovery.left.Verify? && recovery.left.sub.Older?) { return Err(OffTemplate); }
    if !recovery.right.Multi? { return Err(OffTemplate); }
    var user, nodes, keyset := normal.left.sub.sub.key, normal.right, recovery.right;
    var timelock := recovery.left.sub.blocks;
    assert d == Tree(user, nodes.k, nodes.keys, timelock, keyset.k, keyset.keys);
    if timelock != RECOVERY_TIMELOCK_NSEQUENCE { return Err(WrongTimelock); }
    if keyset.k != RECOVERY_THRESHOLD || |keyset.keys| != RECOVERY_KEYS { return Err(WrongRecoveryKeyset); }
    var keys := CheckKeys([user] + nodes.keys + keyset.keys);
    if keys.Fail? { return Err(keys.error); }
    if nodes.k < 1 { return Err(ZeroThreshold); }
    return Ok(VaultTemplate(user, nodes.k, nodes.keys, keyset.keys, timelock));
  }

  // ----- what a script accepts

  /** How long the coin being spent has been buried: in blocks, and in median time. */
  datatype Age = Age(blocks: nat, seconds: nat)

  /** Which keys sign, and how old the coin is. */
  datatype Witness = Witness(signers: set<string>, age: Age)

  /** The relative lock of BIP 68: bit 31 disables it, bit 22 selects 512-second units. */
  predicate LockMatured(n: u32, age: Age) {
    if n / DISABLE_FLAG % 2 == 1 then true
    else if n / TYPE_FLAG % 2 == 1 then age.seconds >= (n % 0x1_0000) * 512
    else age.blocks >= n % 0x1_0000
  }

  /** The three kinds of relative lock: off, in 512-second units, in blocks. */
  lemma LockKinds(value: u16, rest: nat, age: Age)
    requires rest < 0x8000_0000
    ensures LockMatured(0x8000_0000 + rest, age)
    ensures LockMatured(0x40_0000 + value, age) <==> age.seconds >= value * 512
    ensures LockMatured(value, age) <==> age.blocks >= value
  {}

  /** The slots of a multi that the signers can fill: one per position, not per person. */
  function Slots(keys: seq<Key>, signers: set<string>): nat {
    if keys == [] then 0
    else Slots(keys[..|keys| - 1], signers) + if keys[|keys| - 1].text in signers then 1 else 0
  }

  predicate Satisfies(t: Terminal, w: Witness) {
    match t
    case True => true
    case False => false
    case PkK(key) => key.text in w.signers
    case PkH(key) => key.text in w.signers
    case Older(n) => LockMatured(n, w.age)
    case Check(sub) => Satisfies(sub, w)
    case Verify(sub) => Satisfies(sub, w)
    case DupIf(sub) => Satisfies(sub, w)
    case AndV(l, r) => Satisfies(l, w) && Satisfies(r, w)
    case AndB(l, r) => Satisfies(l, w) && Satisfies(r, w)
    case OrB(l, r) => Satisfies(l, w) || Satisfies(r, w)
    case OrD(l, r) => Satisfies(l, w) || Satisfies(r, w)
    case OrI(l, r) => Satisfies(l, w) || Satisfies(r, w)
    case Multi(k, keys) => Slots(keys, w.signers) >= k
  }

  function Texts(keys: seq<Key>): set<string> {
    set i | 0 <= i < |keys| :: keys[i].text
  }

  /** The distinct people among the signers who own one of the keys. */
  function People(keys: seq<Key>, signers: set<string>): nat {
    |signers * Texts(keys)|
  }

  lemma TextsGrow(keys: seq<Key>)
    requires keys != []
    ensures Texts(keys) == Texts(keys[..|keys| - 1]) + {keys[|keys| - 1].text}
  {
    var n := |keys| - 1;
    forall t | t in Texts(keys[..n]) ensures t in Texts(keys) {
      var i :| 0 <= i < n && keys[..n][i].text == t;
      assert keys[i].text == t;
    }
    forall t | t in Texts(keys) ensures t in Texts(keys[..n]) + {keys[n].text} {
      var i :| 0 <= i < |keys| && keys[i].text == t;
      assert i == n || keys[..n][i].text == t;
    }
  }

  /** One more key is one more slot, but one more person only if it was not there. */
  lemma PeopleGrow(keys: seq<Key>, signers: set<string>)
    requires keys != []
    ensures
      var n := |keys| - 1;
      var last := keys[n].text;
      People(keys, signers) ==
        People(keys[..n], signers) + if last in signers && last !in Texts(keys[..n]) then 1 else 0
  {
    var n := |keys| - 1;
    var last, before := keys[n].text, signers * Texts(keys[..n]);
    TextsGrow(keys);
    if last in signers && last !in Texts(keys[..n]) {
      assert signers * Texts(keys) == before + {last};
    } else {
      assert signers * Texts(keys) == before;
    }
  }

  lemma {:induction false} PeopleAtMostSlots(keys: seq<Key>, signers: set<string>)
    ensures People(keys, signers) <= Slots(keys, signers)
  {
    if keys == [] {
      assert signers * Texts(keys) == {};
    } else {
      PeopleAtMostSlots(keys[..|keys| - 1], signers);
      PeopleGrow(keys, signers);
    }
  }

  /** With distinct keys the slot count is the signer count ... */
  lemma {:induction false} DistinctKeysCountPeople(keys: seq<Key>, signers: set<string>)
    requires Distinct(keys)
    ensures Slots(keys, signers) == People(keys, signers)
  {
    if keys == [] {
      assert signers * Texts(keys) == {};
    } else {
      var n := |keys| - 1;
      DistinctKeysCountPeople(keys[..n], signers);
      PeopleGrow(keys, signers);
      assert keys[n].text !in Texts(keys[..n]);
    }
  }

  /** ... and a key at two positions fills two slots alone ... */
  lemma {:induction false} DuplicateFillsTwoSlots(keys: seq<Key>, i: nat, j: nat)
    requires i < j < |keys| && keys[i].text == keys[j].text
    ensures Slots(keys, {keys[i].text}) >= 2 && People(keys, {keys[i].text}) == 1
    decreases |keys|
  {
    var n, t := |keys| - 1, keys[i].text;
    assert {t} * Texts(keys) == {t} by { assert t in Texts(keys); }
    if j < n {
      DuplicateFillsTwoSlots(keys[..n], i, j);
    } else {
      var front := keys[..n];
      assert front[i].text in Texts(front);
      assert {t} * Texts(front) == {t};
      PeopleAtMostSlots(front, {t});
    }
  }

  /** ... so slots count people for every set of signers exactly when keys are distinct. */
  lemma SlotsCountPeopleIffDistinct(keys: seq<Key>)
    ensures Distinct(keys) <==> forall s: set<string> :: Slots(keys, s) == People(keys, s)
  {
    if Distinct(keys) {
      forall s: set<string> ensures Slots(keys, s) == People(keys, s) { DistinctKeysCountPeople(keys, s); }
    } else {
      var i, j :| 0 <= i < j < |keys| && keys[i].text == keys[j].text;
      DuplicateFillsTwoSlots(keys, i, j);
      assert Slots(keys, {keys[i].text}) != People(keys, {keys[i].text});
    }
  }

  /** A repeated recovery key turns the 2-of-3 branch into one person's signature, and
      without that person the other keys cannot open it. */
  lemma DuplicateRecoveryKeyWeakens(keys: seq<Key>, i: nat, j: nat, age: Age)
    requires |keys| == RECOVERY_KEYS && i < j < |keys| && keys[i].text == keys[j].text
    ensures Satisfies(Multi(RECOVERY_THRESHOLD, keys), Witness({keys[i].text}, age))
    ensures !Satisfies(Multi(RECOVERY_THRESHOLD, keys), Witness(Texts(keys) - {keys[i].text}, age))
  {
    DuplicateFillsTwoSlots(keys, i, j);
    var s := Texts(keys) - {keys[i].text};
    assert keys == [keys[0], keys[1], keys[2]];
    assert keys[..2] == [keys[0], keys[1]] && keys[..2][..1] == [keys[0]] && [keys[0]][..0] == [];
    assert Slots(keys[..2], s) == Slots([keys[0]], s) + if keys[1].text in s then 1 else 0;
  }

  lemma TemplateUnfolds(v: VaultTemplate, w: Witness)
    ensures Satisfies(Build(v).inner.root, w) <==>
      || (v.userKey.text in w.signers && Slots(v.nodeKeys, w.signers) >= v.threshold)
      || (LockMatured(v.recoveryTimelock, w.age) && Slots(v.recoveryKeys, w.signers) >= RECOVERY_THRESHOLD)
  {
    var root := Build(v).inner.root;
    NormalUnfolds(v.userKey, v.threshold, v.nodeKeys, w);
    RecoveryUnfolds(v.recoveryTimelock, RECOVERY_THRESHOLD, v.recoveryKeys, w);
    assert Satisfies(root, w) <==> Satisfies(root.left, w) || Satisfies(root.right, w);
  }

  lemma NormalUnfolds(user: Key, t: nat, nodes: seq<Key>, w: Witness)
    ensures Satisfies(AndV(Verify(Check(PkK(user))), Multi(t, nodes)), w) <==>
      user.text in w.signers && Slots(nodes, w.signers) >= t
  {
    assert Satisfies(Check(PkK(user)), w) <==> Satisfies(PkK(user), w);
    assert Satisfies(Verify(Check(PkK(user))), w) <==> Satisfies(Check(PkK(user)), w);
  }

  lemma RecoveryUnfolds(lock: u32, t: nat, keys: seq<Key>, w: Witness)
    ensures Satisfies(AndV(Verify(Older(lock)), Multi(t, keys)), w) <==>
      LockMatured(lock, w.age) && Slots(keys, w.signers) >= t
  {
    assert Satisfies(Verify(Older(lock)), w) <==> Satisfies(Older(lock), w);
  }

  /** What an accepted vault descriptor means: the user and t distinct nodes, or after
      30375 units of 512 seconds two distinct recovery keyholders; nothing else. */
  lemma AcceptedTemplateMeaning(v: VaultTemplate, w: Witness)
    requires Valid(v)
    ensures Satisfies(Build(v).inner.root, w) <==>
      || (v.userKey.text in w.signers && People(v.nodeKeys, w.signers) >= v.threshold)
      || (w.age.seconds >= RECOVERY_TIMELOCK_UNITS * 512 && People(v.recoveryKeys, w.signers) >= 2)
  {
    RolesAreDistinct(v);
    DistinctKeysCountPeople(v.nodeKeys, w.signers);
    DistinctKeysCountPeople(v.recoveryKeys, w.signers);
    TemplateUnfolds(v, w);
    TimeLockNotBlockLock(w.age);
  }

  lemma RolesAreDistinct(v: VaultTemplate)
    requires Valid(v)
    ensures Distinct(v.nodeKeys) && Distinct(v.recoveryKeys)
  {
    var all, n := AllKeys(v), |v.nodeKeys|;
    forall i, j | 0 <= i < j < n ensures v.nodeKeys[i].text != v.nodeKeys[j].text {
      assert all[1 + i] == v.nodeKeys[i] && all[1 + j] == v.nodeKeys[j];
    }
    forall i, j | 0 <= i < j < |v.recoveryKeys| ensures v.recoveryKeys[i].text != v.recoveryKeys[j].text {
      assert all[1 + n + i] == v.recoveryKeys[i] && all[1 + n + j] == v.recoveryKeys[j];
    }
  }

  /** The normal branch needs t + 1 different people, because no role shares a key. */
  lemma NormalBranchNeedsQuorum(v: VaultTemplate, w: Witness)
    requires Valid(v) && w.age.seconds < RECOVERY_TIMELOCK_UNITS * 512
    requires Satisfies(Build(v).inner.root, w)
    ensures |w.signers| >= v.threshold + 1
  {
    AcceptedTemplateMeaning(v, w);
    UserIsNoNode(v);
    Subset(w.signers * Texts(v.nodeKeys) + {v.userKey.text}, w.signers);
  }

  lemma UserIsNoNode(v: VaultTemplate)
    requires Valid(v)
    ensures v.userKey.text !in Texts(v.nodeKeys)
  {
    var all := AllKeys(v);
    forall i | 0 <= i < |v.nodeKeys| ensures v.nodeKeys[i].text != v.userKey.text {
      assert all[0] == v.userKey && all[1 + i] == v.nodeKeys[i];
    }
  }

  lemma {:induction false} Subset(a: set<string>, b: set<string>)
    requires a <= b
    ensures |a| <= |b|
  {
    if a != {} {
      var x :| x in a;
      Subset(a - {x}, b - {x});
    }
  }

  // ----- the time lock

  /** from_512_second_intervals sets the type flag over the unit count. */
  function RecoverySequence(): u32 { RECOVERY_TIMELOCK_UNITS + TYPE_FLAG }

  /** The sealed argument is a time lock of 30375 units and ignores height; the bare unit
      count would be a height lock and ignore time. */
  lemma TimeLockNotBlockLock(age: Age)
    ensures RecoverySequence() == RECOVERY_TIMELOCK_NSEQUENCE
    ensures LockMatured(RecoverySequence(), age) <==> age.seconds >= RECOVERY_TIMELOCK_UNITS * 512
    ensures LockMatured(RECOVERY_TIMELOCK_UNITS, age) <==> age.blocks >= 30375
  {}
}
