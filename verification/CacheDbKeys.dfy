/** The keys and the records of `cachedb/cachedb.c` in the external cache. */
module CacheDbKeys {
  import opened Octets
  import opened Options

  // ----- keys

  datatype Question = Question(name: seq<Byte>, qtype: Word, qclass: Word)

  /** A name in wire format is at most 255 bytes long. */
  predicate QuestionOk(q: Question) {
    |q.name| <= 255
  }

  function Lower(b: Byte): Byte {
    if 65 <= b <= 90 then b + 32 else b
  }

  /** `query_dname_tolower`; the lengths of labels are below 64, so that they stay as they are. */
  function LowerName(name: seq<Byte>): (r: seq<Byte>)
    ensures |r| == |name| && forall i :: 0 <= i < |r| ==> r[i] == Lower(name[i])
  {
    seq(|name|, i requires 0 <= i < |name| => Lower(name[i]))
  }

  /** The question up to the case of its name. */
  function Canon(q: Question): Question {
    q.(name := LowerName(q.name))
  }

  lemma WordBytesInjective(x: Word, y: Word)
    requires WordBytes(x) == WordBytes(y)
    ensures x == y
  {
    assert WordBytes(x)[0] == WordBytes(y)[0] && WordBytes(x)[1] == WordBytes(y)[1];
  }

  /** The clear buffer of `calc_hash`, of 1024 bytes: each part goes in if there is room for it. */
  function Clear(q: Question, secret: seq<Byte>): seq<Byte> {
    var a := if |q.name| < 1024 then LowerName(q.name) else [];
    var b := if |a| + 4 < 1024 then a + WordBytes(q.qtype) + WordBytes(q.qclass) else a;
    if |b| + |secret| < 1024 then b + secret else b
  }

  function Fixed(q: Question): (r: seq<Byte>)
    ensures |r| == |q.name| + 4
  {
    LowerName(q.name) + WordBytes(q.qtype) + WordBytes(q.qclass)
  }

  /** Different questions have different clear buffers, also where the secret fits only one of them. */
  lemma ClearInjective(q: Question, q': Question, secret: seq<Byte>)
    requires QuestionOk(q) && QuestionOk(q') && Clear(q, secret) == Clear(q', secret)
    ensures Canon(q) == Canon(q')
  {
    var n, n' := |q.name| + 4, |q'.name| + 4;
    var c := Clear(q, secret);
    assert n == n';
    assert c[..n] == Fixed(q) && c[..n'] == Fixed(q');
    var m := |q.name|;
    assert Fixed(q)[..m] == LowerName(q.name) && Fixed(q')[..m] == LowerName(q'.name);
    assert Fixed(q)[m..m + 2] == WordBytes(q.qtype) && Fixed(q')[m..m + 2] == WordBytes(q'.qtype);
    assert Fixed(q)[m + 2..] == WordBytes(q.qclass) && Fixed(q')[m + 2..] == WordBytes(q'.qclass);
    WordBytesInjective(q.qtype, q'.qtype);
    WordBytesInjective(q.qclass, q'.qclass);
  }

  const HEX := "0123456789ABCDEF"

  function HexText(hash: seq<Byte>): string {
    if hash == [] then "" else [HEX[hash[0] / 16], HEX[hash[0] % 16]] + HexText(hash[1..])
  }

  lemma HexDistinct(i: nat, j: nat)
    requires i < 16 && j < 16 && HEX[i] == HEX[j]
    ensures i == j
  {
  }

  lemma {:induction false} HexTextInjective(a: seq<Byte>, b: seq<Byte>)
    requires HexText(a) == HexText(b)
    ensures a == b
  {
    if a != [] && b != [] {
      assert HexText(a)[0] == HexText(b)[0] && HexText(a)[1] == HexText(b)[1];
      HexDistinct(a[0] / 16, b[0] / 16);
      HexDistinct(a[0] % 16, b[0] % 16);
      assert HexText(a)[2..] == HexText(a[1..]) && HexText(b)[2..] == HexText(b[1..]);
      HexTextInjective(a[1..], b[1..]);
      assert a == [a[0]] + a[1..] && b == [b[0]] + b[1..];
    }
  }

  /** SHA-256, of which it is assumed that no two inputs in use collide. */
  type Hash = seq<Byte> -> seq<Byte>

  ghost predicate Injective(sha: Hash) {
    forall a, b :: sha(a) == sha(b) ==> a == b
  }

  /** `calc_hash`. */
  function KeyOf(sha: Hash, q: Question, secret: seq<Byte>): string {
    HexText(sha(Clear(q, secret)))
  }

  /** Two questions have the same key exactly if they differ in the case of the name only. */
  lemma SameKey(sha: Hash, q: Question, q': Question, secret: seq<Byte>)
    requires Injective(sha) && QuestionOk(q) && QuestionOk(q')
    ensures KeyOf(sha, q, secret) == KeyOf(sha, q', secret) <==> Canon(q) == Canon(q')
  {
    if KeyOf(sha, q, secret) == KeyOf(sha, q', secret) {
      HexTextInjective(sha(Clear(q, secret)), sha(Clear(q', secret)));
      ClearInjective(q, q', secret);
    }
  }

  /** The same byte, or the same letter as a capital and not. */
  predicate SameLetter(a: Byte, b: Byte) {
    a == b || ('A' as int <= a <= 'Z' as int && b == a + 32)
    || ('A' as int <= b <= 'Z' as int && a == b + 32)
  }

  /** Two questions have the same key exactly if type and class are the same and so are the letters of the names. */
  lemma SameKeyLetters(sha: Hash, q: Question, q': Question, secret: seq<Byte>)
    requires Injective(sha) && QuestionOk(q) && QuestionOk(q')
    ensures KeyOf(sha, q, secret) == KeyOf(sha, q', secret) <==>
      && q.qtype == q'.qtype && q.qclass == q'.qclass && |q.name| == |q'.name|
      && forall i :: 0 <= i < |q.name| ==> SameLetter(q.name[i], q'.name[i])
  {
    SameKey(sha, q, q', secret);
    LowerLetters(q.name, q'.name);
  }

  lemma LowerLetters(a: seq<Byte>, b: seq<Byte>)
    ensures LowerName(a) == LowerName(b) <==> |a| == |b| && forall i :: 0 <= i < |a| ==> SameLetter(a[i], b[i])
  {
    if |a| == |b| {
      assert forall i :: 0 <= i < |a| ==> (Lower(a[i]) == Lower(b[i]) <==> SameLetter(a[i], b[i]));
      assert forall i :: 0 <= i < |a| ==> LowerName(a)[i] == Lower(a[i]) && LowerName(b)[i] == Lower(b[i]);
    }
  }

  /** Where the secrets fit, questions with different secrets have different keys. */
  lemma SecretMatters(sha: Hash, q: Question, secret: seq<Byte>, secret': seq<Byte>)
    requires Injective(sha) && QuestionOk(q) && |q.name| + 4 + |secret| < 1024 && |q.name| + 4 + |secret'| < 1024
    ensures KeyOf(sha, q, secret) == KeyOf(sha, q, secret') <==> secret == secret'
  {
    if KeyOf(sha, q, secret) == KeyOf(sha, q, secret') {
      HexTextInjective(sha(Clear(q, secret)), sha(Clear(q, secret')));
      var n := |q.name| + 4;
      assert Clear(q, secret)[n..] == secret && Clear(q, secret')[n..] == secret';
    }
  }

  /** A secret that does not fit is left out. */
  lemma SecretLeftOut(sha: Hash, q: Question, secret: seq<Byte>)
    requires Injective(sha) && QuestionOk(q)
    ensures KeyOf(sha, q, secret) == KeyOf(sha, q, []) <==> secret == [] || |q.name| + 4 + |secret| >= 1024
  {
    if |q.name| + 4 + |secret| < 1024 {
      SecretMatters(sha, q, secret, []);
    } else {
      assert Clear(q, []) == Clear(q, secret);
    }
  }

  /** Two capital hexadecimal digits for each byte of the hash. */
  lemma {:induction false} HexTextAt(hash: seq<Byte>, i: nat)
    requires i < |hash|
    ensures |HexText(hash)| == 2 * |hash|
    ensures HexText(hash)[2 * i] == "0123456789ABCDEF"[hash[i] / 16] && HexText(hash)[2 * i + 1] == "0123456789ABCDEF"[hash[i] % 16]
    decreases |hash|
  {
    var head, rest := [HEX[hash[0] / 16], HEX[hash[0] % 16]], HexText(hash[1..]);
    assert HexText(hash) == head + rest;
    if |hash| > 1 {
      HexTextAt(hash[1..], if i > 0 then i - 1 else 0);
    }
    if i > 0 {
      assert (head + rest)[2 * i] == rest[2 * (i - 1)] && (head + rest)[2 * i + 1] == rest[2 * (i - 1) + 1];
    }
  }

  /** The key depends on the question up to the case of its name. */
  lemma CanonKey(sha: Hash, q: Question, secret: seq<Byte>)
    ensures Canon(Canon(q)) == Canon(q) && KeyOf(sha, Canon(q), secret) == KeyOf(sha, q, secret)
  {
    assert LowerName(LowerName(q.name)) == LowerName(q.name);
  }

  // ----- times in a record

  /** A number in network order, of k bytes. */
  function NetworkOrder(n: nat, k: nat): (b: seq<Byte>)
    ensures |b| == k
  {
    if k == 0 then [] else NetworkOrder(n / 256, k - 1) + [n % 256]
  }

  function NetworkValue(b: seq<Byte>): nat {
    if b == [] then 0 else NetworkValue(b[..|b| - 1]) * 256 + b[|b| - 1] as int
  }

  function Power256(k: nat): nat {
    if k == 0 then 1 else 256 * Power256(k - 1)
  }

  lemma {:induction false} NetworkRoundTrip(n: nat, k: nat)
    requires n < Power256(k)
    ensures NetworkValue(NetworkOrder(n, k)) == n
  {
    if k > 0 {
      NetworkRoundTrip(n / 256, k - 1);
      assert NetworkOrder(n, k)[..k - 1] == NetworkOrder(n / 256, k - 1);
    }
  }

  const TWO63 := 0x8000_0000_0000_0000

  lemma Powers()
    ensures Power256(8) > TWO63
  {
    assert Power256(2) == 65536;
    assert Power256(4) == 65536 * Power256(2);
    assert Power256(6) == 65536 * Power256(4);
  }
}
