/** The texts that identify a vault and bind a pairing challenge to it. */
module RelayText {
  import opened Decimal

  datatype VaultKey = VaultKey(chainId: int, vaultAddress: string)

  function LowerChar(c: char): char {
    if 'A' <= c <= 'Z' then (c as int - 'A' as int + 'a' as int) as char else c
  }

  function Lower(s: string): (t: string)
    ensures |t| == |s|
    ensures forall i :: 0 <= i < |s| ==> t[i] == LowerChar(s[i])
  {
    if s == "" then "" else [LowerChar(s[0])] + Lower(s[1..])
  }

  function PrintInt(n: int): string {
    if n < 0 then "-" + Print(-n) else Print(n)
  }

  /** One entry of every map the relay keeps: a vault is its chain and address, never the address alone. */
  function Token(key: VaultKey): string {
    PrintInt(key.chainId) + ":" + Lower(key.vaultAddress)
  }

  function Lines(first: string, rest: seq<string>): string
    decreases |rest|
  {
    if rest == [] then first else first + "\n" + Lines(rest[0], rest[1..])
  }

  const HEADING := "Arcaidia Telemetry Pairing"

  function Body(key: VaultKey, operator: string, nonce: string, issuedAt: int, expiresAt: int): seq<string> {
    ["chainId:" + PrintInt(key.chainId),
     "vault:" + Lower(key.vaultAddress),
     "operator:" + Lower(operator),
     "nonce:" + nonce,
     "issuedAt:" + PrintInt(issuedAt),
     "expiresAt:" + PrintInt(expiresAt)]
  }

  /** The text an operator signs to prove it holds its key. */
  function ChallengeMessage(key: VaultKey, operator: string, nonce: string, issuedAt: int, expiresAt: int): string {
    Lines(HEADING, Body(key, operator, nonce, issuedAt, expiresAt))
  }

  // ----- laws ----------------------------------------------------------------

  lemma LowerIdempotent(s: string)
    ensures Lower(Lower(s)) == Lower(s)
  {
    var once, twice := Lower(s), Lower(Lower(s));
    assert forall i :: 0 <= i < |s| ==> twice[i] == LowerChar(once[i]) == once[i];
  }

  /** Lower-casing moves the codes 65 to 90 up by 32, the capitals to the small letters, and leaves all else. */
  lemma LowerIsAscii(s: string, i: nat)
    requires i < |s|
    ensures |Lower(s)| == |s|
    ensures Lower(s)[i] as int == s[i] as int + if 65 <= s[i] as int <= 90 then 32 else 0
  {}

  /** Vaults on one chain share an entry exactly when their addresses differ at most in case. */
  lemma SameTokenIff(a: VaultKey, b: VaultKey)
    requires a.chainId == b.chainId
    ensures Token(a) == Token(b) <==> Lower(a.vaultAddress) == Lower(b.vaultAddress)
  {
    hide Lower, PrintInt;
    var head := PrintInt(a.chainId) + ":";
    assert Token(a) == head + Lower(a.vaultAddress) && Token(b) == head + Lower(b.vaultAddress);
    if Token(a) == Token(b) {
      assert Lower(a.vaultAddress) == Token(a)[|head|..] == Token(b)[|head|..] == Lower(b.vaultAddress);
    }
  }

  predicate Free(s: string, c: char) {
    forall i :: 0 <= i < |s| ==> s[i] != c
  }

  /** Text is cut at its first separator in one way only. */
  lemma SplitUnique(c: char, a: string, b: string, a': string, b': string)
    requires Free(a, c) && Free(a', c)
    requires a + [c] + b == a' + [c] + b'
    ensures a == a' && b == b'
  {
    var s, s' := a + [c] + b, a' + [c] + b';
    assert s[|a|] == c && s'[|a'|] == c;
    assert forall i :: 0 <= i < |a| ==> s[i] == a[i] != c;
    assert forall i :: 0 <= i < |a'| ==> s'[i] == a'[i] != c;
    assert a == s[..|a|] && a' == s'[..|a'|];
    assert b == s[|a| + 1..] && b' == s'[|a'| + 1..];
  }

  lemma PrintIntFree(n: int, c: char)
    requires !IsDigit(c) && c != '-'
    ensures Free(PrintInt(n), c)
  {}

  lemma PrintIntInjective(m: int, n: int)
    requires PrintInt(m) == PrintInt(n)
    ensures m == n
  {
    var s, t := PrintInt(m), PrintInt(n);
    assert IsDigit(Print(if m < 0 then -m else m)[0]) && IsDigit(Print(if n < 0 then -n else n)[0]);
    assert m < 0 <==> s[0] == '-';
    assert n < 0 <==> t[0] == '-';
    if m < 0 {
      assert Print(-m) == s[1..] == t[1..] == Print(-n);
      PrintInjective(-m, -n);
    } else {
      PrintInjective(m, n);
    }
  }

  /** Tokens tell apart every two vaults that differ in chain or address. */
  lemma TokenInjective(a: VaultKey, b: VaultKey)
    requires Token(a) == Token(b)
    ensures a.chainId == b.chainId && Lower(a.vaultAddress) == Lower(b.vaultAddress)
  {
    PrintIntFree(a.chainId, ':');
    PrintIntFree(b.chainId, ':');
    SplitUnique(':', PrintInt(a.chainId), Lower(a.vaultAddress), PrintInt(b.chainId), Lower(b.vaultAddress));
    PrintIntInjective(a.chainId, b.chainId);
  }

  lemma TokenDependsOnLower(a: VaultKey, b: VaultKey)
    requires a.chainId == b.chainId && Lower(a.vaultAddress) == Lower(b.vaultAddress)
    ensures Token(a) == Token(b)
  {}

  /** Text is cut at its last separator in one way only. */
  lemma SplitUniqueLast(c: char, a: string, b: string, a': string, b': string)
    requires Free(b, c) && Free(b', c)
    requires a + [c] + b == a' + [c] + b'
    ensures a == a' && b == b'
  {
    var s, s' := a + [c] + b, a' + [c] + b';
    assert s[|a|] == c && s'[|a'|] == c;
    assert forall i :: |a| < i < |s| ==> s[i] == b[i - |a| - 1] != c;
    assert forall i :: |a'| < i < |s'| ==> s'[i] == b'[i - |a'| - 1] != c;
    assert a == s[..|a|] && a' == s'[..|a'|];
    assert b == s[|a| + 1..] && b' == s'[|a'| + 1..];
  }

  lemma LinesCons(first: string, next: string, rest: seq<string>)
    ensures Lines(first, [next] + rest) == first + "\n" + Lines(next, rest)
  {
    assert ([next] + rest)[1..] == rest;
  }

  lemma {:induction false} LinesSnoc(first: string, rest: seq<string>, last: string)
    ensures Lines(first, rest + [last]) == Lines(first, rest) + "\n" + last
    decreases |rest|
  {
    if rest == [] {
      assert [] + [last] == [last] + [];
    } else {
      assert rest + [last] == [rest[0]] + (rest[1..] + [last]);
      LinesCons(first, rest[0], rest[1..] + [last]);
      LinesSnoc(rest[0], rest[1..], last);
      assert first + "\n" + (Lines(rest[0], rest[1..]) + "\n" + last) == (first + "\n" + Lines(rest[0], rest[1..])) + "\n" + last;
    }
  }

  // ----- what a challenge binds ---------------------------------------------------

  /** The label that separates the vault's text from the operator's. */
  const LABEL := "\noperator:"

  /** The part of a challenge both addresses share. */
  function Addresses(vault: string, operator: string): string {
    vault + LABEL + operator
  }

  function Front(chainId: int, vault: string, operator: string): string {
    HEADING + "\n" + ("chainId:" + PrintInt(chainId)) + "\n" + ("vault:" + Addresses(vault, operator))
  }

  lemma FrontIsLines(chainId: int, vault: string, operator: string)
    ensures Lines(HEADING, ["chainId:" + PrintInt(chainId), "vault:" + vault, "operator:" + operator])
         == Front(chainId, vault, operator)
  {
    hide PrintInt, Lines;
    var chain, v, o := "chainId:" + PrintInt(chainId), "vault:" + vault, "operator:" + operator;
    assert [chain, v, o] == (([] + [chain]) + [v]) + [o];
    LinesSnoc(HEADING, ([] + [chain]) + [v], o);
    LinesSnoc(HEADING, [] + [chain], v);
    LinesSnoc(HEADING, [], chain);
    NoLines(HEADING);
    assert v + "\n" + o == "vault:" + Addresses(vault, operator);
    assert (HEADING + "\n" + chain + "\n" + v) + "\n" + o == HEADING + "\n" + chain + "\n" + (v + "\n" + o);
  }

  lemma NoLines(first: string)
    ensures Lines(first, []) == first
  {}

  function WithTail(front: string, nonce: string, issuedAt: int, expiresAt: int): string {
    front + "\n" + ("nonce:" + nonce) + "\n" + ("issuedAt:" + PrintInt(issuedAt)) + "\n" + ("expiresAt:" + PrintInt(expiresAt))
  }

  /** A challenge is its addresses' part followed by its nonce and its two times. */
  lemma MessageShape(key: VaultKey, operator: string, nonce: string, issuedAt: int, expiresAt: int)
    ensures ChallengeMessage(key, operator, nonce, issuedAt, expiresAt)
         == WithTail(Front(key.chainId, Lower(key.vaultAddress), Lower(operator)), nonce, issuedAt, expiresAt)
  {
    hide PrintInt, Lines, Lower, Front;
    var body := Body(key, operator, nonce, issuedAt, expiresAt);
    assert body == ((body[..3] + [body[3]]) + [body[4]]) + [body[5]];
    LinesSnoc(HEADING, (body[..3] + [body[3]]) + [body[4]], body[5]);
    LinesSnoc(HEADING, body[..3] + [body[3]], body[4]);
    LinesSnoc(HEADING, body[..3], body[3]);
    FrontIsLines(key.chainId, Lower(key.vaultAddress), Lower(operator));
    assert body[..3] == ["chainId:" + PrintInt(key.chainId), "vault:" + Lower(key.vaultAddress), "operator:" + Lower(operator)];
  }

  lemma PrefixCancels(p: string, a: string, b: string)
    requires p + a == p + b
    ensures a == b
  {
    assert a == (p + a)[|p|..] == (p + b)[|p|..] == b;
  }

  lemma LabelledNumber(p: string, m: int, n: int)
    requires p + PrintInt(m) == p + PrintInt(n)
    ensures m == n
  {
    PrefixCancels(p, PrintInt(m), PrintInt(n));
    PrintIntInjective(m, n);
  }

  /** The nonce and both times are read back from the right, whatever the addresses hold. */
  lemma TailBinds(f1: string, n1: string, i1: int, e1: int, f2: string, n2: string, i2: int, e2: int)
    requires Free(n1, '\n') && Free(n2, '\n') && WithTail(f1, n1, i1, e1) == WithTail(f2, n2, i2, e2)
    ensures f1 == f2 && n1 == n2 && i1 == i2 && e1 == e2
  {
    hide PrintInt;
    PrintIntFree(i1, '\n');
    PrintIntFree(i2, '\n');
    PrintIntFree(e1, '\n');
    PrintIntFree(e2, '\n');
    var x1, y1, z1 := "nonce:" + n1, "issuedAt:" + PrintInt(i1), "expiresAt:" + PrintInt(e1);
    var x2, y2, z2 := "nonce:" + n2, "issuedAt:" + PrintInt(i2), "expiresAt:" + PrintInt(e2);
    SplitUniqueLast('\n', f1 + "\n" + x1 + "\n" + y1, z1, f2 + "\n" + x2 + "\n" + y2, z2);
    SplitUniqueLast('\n', f1 + "\n" + x1, y1, f2 + "\n" + x2, y2);
    SplitUniqueLast('\n', f1, x1, f2, x2);
    PrefixCancels("nonce:", n1, n2);
    LabelledNumber("issuedAt:", i1, i2);
    LabelledNumber("expiresAt:", e1, e2);
  }

  /** The chain is read back from the left. */
  lemma FrontBinds(c1: int, v1: string, o1: string, c2: int, v2: string, o2: string)
    requires Front(c1, v1, o1) == Front(c2, v2, o2)
    ensures c1 == c2 && Addresses(v1, o1) == Addresses(v2, o2)
  {
    hide PrintInt, Addresses;
    PrintIntFree(c1, '\n');
    PrintIntFree(c2, '\n');
    var x1, y1 := "chainId:" + PrintInt(c1), "vault:" + Addresses(v1, o1);
    var x2, y2 := "chainId:" + PrintInt(c2), "vault:" + Addresses(v2, o2);
    assert Front(c1, v1, o1) == HEADING + ['\n'] + (x1 + "\n" + y1);
    assert Front(c2, v2, o2) == HEADING + ['\n'] + (x2 + "\n" + y2);
    SplitUnique('\n', HEADING, x1 + "\n" + y1, HEADING, x2 + "\n" + y2);
    SplitUnique('\n', x1, y1, x2, y2);
    LabelledNumber("chainId:", c1, c2);
    PrefixCancels("vault:", Addresses(v1, o1), Addresses(v2, o2));
  }

  /** The label begins at this place of the text. */
  predicate LabelAt(s: string, i: nat) {
    i + |LABEL| <= |s| && s[i..i + |LABEL|] == LABEL
  }

  predicate HoldsLabel(s: string) {
    exists i: nat :: i <= |s| && LabelAt(s, i)
  }

  /** Labels cannot overlap, so one in the joined addresses is the separator itself or lies within one of them. */
  lemma LabelInAddresses(v: string, o: string, i: nat)
    requires LabelAt(Addresses(v, o), i)
    ensures i == |v| || LabelAt(v, i) || (|v| + |LABEL| <= i && LabelAt(o, i - |v| - |LABEL|))
  {
    var s := Addresses(v, o);
    LabelChars(s, i);
    assert s[|v|..|v| + |LABEL|] == LABEL;
    LabelChars(s, |v|);
    assert s[i] == '\n' && s[|v|] == '\n';
    if i + |LABEL| <= |v| {
      assert s[i..i + |LABEL|] == v[i..i + |LABEL|];
    } else if |v| + |LABEL| <= i {
      var j := i - |v| - |LABEL|;
      assert s[i..i + |LABEL|] == o[j..j + |LABEL|];
    }
  }

  lemma LabelChars(s: string, i: nat)
    requires LabelAt(s, i)
    ensures s[i] == '\n' && forall m :: i < m < i + |LABEL| ==> s[m] != '\n'
  {
    assert forall m :: i <= m < i + |LABEL| ==> s[m] == s[i..i + |LABEL|][m - i];
  }

  /** Joined addresses come apart in one way exactly when neither holds the label. */
  lemma AddressesBind(v1: string, o1: string, v2: string, o2: string)
    requires Addresses(v1, o1) == Addresses(v2, o2) && !HoldsLabel(v1) && !HoldsLabel(o1)
    ensures v1 == v2 && o1 == o2
  {
    var s := Addresses(v1, o1);
    assert s[|v2|..|v2| + |LABEL|] == LABEL;
    LabelInAddresses(v1, o1, |v2|);
    assert v1 == s[..|v1|] && v2 == s[..|v2|];
    assert o1 == s[|v1| + |LABEL|..] && o2 == s[|v2| + |LABEL|..];
  }

  /** Address texts no other addresses can be mistaken for. */
  predicate Unambiguous(key: VaultKey, operator: string) {
    !HoldsLabel(Lower(key.vaultAddress)) && !HoldsLabel(Lower(operator))
  }

  /** Whatever the addresses, two challenges in the same words have the same nonce, times and chain, and joined addresses. */
  lemma MessageBindsTail(
      k1: VaultKey, o1: string, n1: string, i1: int, e1: int,
      k2: VaultKey, o2: string, n2: string, i2: int, e2: int)
    requires Free(n1, '\n') && Free(n2, '\n')
    requires ChallengeMessage(k1, o1, n1, i1, e1) == ChallengeMessage(k2, o2, n2, i2, e2)
    ensures n1 == n2 && i1 == i2 && e1 == e2 && k1.chainId == k2.chainId
    ensures Addresses(Lower(k1.vaultAddress), Lower(o1)) == Addresses(Lower(k2.vaultAddress), Lower(o2))
  {
    hide ChallengeMessage, WithTail, Front, Lower, Addresses;
    MessageShape(k1, o1, n1, i1, e1);
    MessageShape(k2, o2, n2, i2, e2);
    var f1, f2 := Front(k1.chainId, Lower(k1.vaultAddress), Lower(o1)), Front(k2.chainId, Lower(k2.vaultAddress), Lower(o2));
    TailBinds(f1, n1, i1, e1, f2, n2, i2, e2);
    FrontBinds(k1.chainId, Lower(k1.vaultAddress), Lower(o1), k2.chainId, Lower(k2.vaultAddress), Lower(o2));
  }

  /** A challenge whose addresses are unambiguous binds everything in it: no signature over it fits any other. */
  lemma MessageBindsEverything(
      k1: VaultKey, o1: string, n1: string, i1: int, e1: int,
      k2: VaultKey, o2: string, n2: string, i2: int, e2: int)
    requires Unambiguous(k1, o1) && Free(n1, '\n') && Free(n2, '\n')
    requires ChallengeMessage(k1, o1, n1, i1, e1) == ChallengeMessage(k2, o2, n2, i2, e2)
    ensures Token(k1) == Token(k2) && Lower(o1) == Lower(o2) && n1 == n2 && i1 == i2 && e1 == e2
  {
    hide ChallengeMessage, HoldsLabel, Lower, Addresses;
    MessageBindsTail(k1, o1, n1, i1, e1, k2, o2, n2, i2, e2);
    AddressesBind(Lower(k1.vaultAddress), Lower(o1), Lower(k2.vaultAddress), Lower(o2));
    TokenDependsOnLower(k1, k2);
  }

  predicate IsLower(s: string) {
    forall i :: 0 <= i < |s| ==> LowerChar(s[i]) == s[i]
  }

  lemma LowerFixes(s: string)
    requires IsLower(s)
    ensures Lower(s) == s
  {
    var t := Lower(s);
    hide Lower;
    assert forall i :: 0 <= i < |s| ==> t[i] == s[i];
  }

  lemma LowerIsLower(s: string)
    ensures IsLower(Lower(s))
  {
    hide Lower;
  }

  lemma CutVault(v: string, o: string, i: nat)
    requires LabelAt(v, i)
    ensures Addresses(v[..i], v[i + |LABEL|..] + LABEL + o) == Addresses(v, o)
  {
    assert v == v[..i] + LABEL + v[i + |LABEL|..];
  }

  lemma CutOperator(v: string, o: string, i: nat)
    requires LabelAt(o, i)
    ensures Addresses(v + LABEL + o[..i], o[i + |LABEL|..]) == Addresses(v, o)
  {
    assert o == o[..i] + LABEL + o[i + |LABEL|..];
  }

  /** Addresses that hold the label have a second reading, cut at that label instead. */
  lemma SecondReading(key: VaultKey, operator: string) returns (vault: string, other: string)
    requires !Unambiguous(key, operator)
    ensures Lower(vault) == vault && Lower(other) == other && vault != Lower(key.vaultAddress)
    ensures Addresses(vault, other) == Addresses(Lower(key.vaultAddress), Lower(operator))
  {
    hide Lower, Addresses;
    var v, o := Lower(key.vaultAddress), Lower(operator);
    LowerIsLower(key.vaultAddress);
    LowerIsLower(operator);
    if HoldsLabel(v) {
      var i: nat :| i <= |v| && LabelAt(v, i);
      vault, other := v[..i], v[i + |LABEL|..] + LABEL + o;
      CutVault(v, o, i);
    } else {
      var i: nat :| i <= |o| && LabelAt(o, i);
      vault, other := v + LABEL + o[..i], o[i + |LABEL|..];
      CutOperator(v, o, i);
    }
    LowerFixes(vault);
    LowerFixes(other);
  }

  /** No other vault, operator, nonce or times are put in the same words. */
  ghost predicate OneReading(key: VaultKey, operator: string, nonce: string, issuedAt: int, expiresAt: int) {
    forall k, o, n, i, e ::
      Free(n, '\n') && ChallengeMessage(k, o, n, i, e) == ChallengeMessage(key, operator, nonce, issuedAt, expiresAt) ==>
        Token(k) == Token(key) && Lower(o) == Lower(operator) && n == nonce && i == issuedAt && e == expiresAt
  }

  /**
   * A challenge binds its vault and operator exactly when neither address text holds the operator label: a test
   * on the request, before the challenge is issued. Line breaks alone do no harm.
   */
  lemma OneReadingIff(key: VaultKey, operator: string, nonce: string, issuedAt: int, expiresAt: int)
    requires Free(nonce, '\n')
    ensures OneReading(key, operator, nonce, issuedAt, expiresAt) <==> Unambiguous(key, operator)
  {
    hide ChallengeMessage, Unambiguous, Token, Lower, Free;
    if Unambiguous(key, operator) {
      forall k, o, n, i, e |
        Free(n, '\n') && ChallengeMessage(k, o, n, i, e) == ChallengeMessage(key, operator, nonce, issuedAt, expiresAt)
        ensures Token(k) == Token(key) && Lower(o) == Lower(operator) && n == nonce && i == issuedAt && e == expiresAt
      {
        MessageBindsEverything(key, operator, nonce, issuedAt, expiresAt, k, o, n, i, e);
      }
    } else {
      var vault, other := SecondReading(key, operator);
      var k := VaultKey(key.chainId, vault);
      SameWords(key, operator, k, other, nonce, issuedAt, expiresAt);
      if Token(k) == Token(key) {
        TokenInjective(k, key);
      }
    }
  }

  lemma SameWords(k1: VaultKey, o1: string, k2: VaultKey, o2: string, nonce: string, issuedAt: int, expiresAt: int)
    requires k1.chainId == k2.chainId
    requires Addresses(Lower(k1.vaultAddress), Lower(o1)) == Addresses(Lower(k2.vaultAddress), Lower(o2))
    ensures ChallengeMessage(k1, o1, nonce, issuedAt, expiresAt) == ChallengeMessage(k2, o2, nonce, issuedAt, expiresAt)
  {
    hide ChallengeMessage, WithTail, Lower, Addresses;
    MessageShape(k1, o1, nonce, issuedAt, expiresAt);
    MessageShape(k2, o2, nonce, issuedAt, expiresAt);
  }
}
