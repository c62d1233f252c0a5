/**
 * Cache keys: the 31-bit string hash that turns a property key such as
 * "trac.wiki.api.WikiSystem.pages" into the integer id of a row in the `cache` table,
 * and the process-wide record of which key produced which id.
 */
module CacheKeys {

  /** 2^n. */
  function Pow2(n: nat): (r: nat)
    ensures r >= 1
  {
    if n == 0 then 1 else 2 * Pow2(n - 1)
  }

  /** `result & 0x7fffffff` for a non-negative `result` keeps it below this modulus. */
  const Modulus: nat := 0x8000_0000

  /** The multiplier of the hash. */
  const Multiplier: nat := 1000003

  /** Bitwise exclusive or of two natural numbers (Python's `^` on non-negative ints). */
  function Xor(a: nat, b: nat): nat
    decreases a + b
  {
    if a == 0 && b == 0 then 0
    else 2 * Xor(a / 2, b / 2) + (if a % 2 == b % 2 then 0 else 1)
  }

  /** Exclusive or never sets a bit above the width of its operands. */
  lemma {:induction false} XorBelow(a: nat, b: nat, n: nat)
    requires a < Pow2(n) && b < Pow2(n)
    ensures Xor(a, b) < Pow2(n)
    decreases n
  {
    if n > 0 && (a != 0 || b != 0) {
      XorBelow(a / 2, b / 2, n - 1);
    }
  }

  /** Exclusive or with 0 is the identity. */
  lemma {:induction false} XorZero(a: nat)
    ensures Xor(a, 0) == a
    decreases a
  {
    if a != 0 {
      XorZero(a / 2);
    }
  }

  /** Exclusive or of a multiple of 2^n with a number below 2^n is their sum. */
  lemma {:induction false} XorDisjoint(a: nat, b: nat, n: nat, c: nat)
    requires a == c * Pow2(n) && b < Pow2(n)
    ensures Xor(a, b) == a + b
    decreases n
  {
    if n == 0 {
      XorZero(a);
    } else if a != 0 || b != 0 {
      var p := Pow2(n - 1);
      assert a == 2 * (c * p);
      XorDisjoint(a / 2, b / 2, n - 1, c);
    }
  }

  /** Exclusive or with 1 flips the lowest bit. */
  lemma XorOne(a: nat)
    ensures Xor(a, 1) == if a % 2 == 0 then a + 1 else a - 1
  {
    XorZero(a / 2);
  }

  /** The value the hash starts from: the first character's code shifted left by 7 bits, or 0. */
  function Seed(s: string): nat {
    if s == [] then 0 else (s[0] as int) * 128
  }

  /** One round of the hash: multiply, keep 31 bits, mix in the character. */
  function Round(result: nat, c: char): nat {
    Xor((Multiplier * result) % Modulus, c as int)
  }

  /** Every round lands below 2^31, whatever it starts from. */
  lemma RoundBelow(result: nat, c: char)
    ensures Round(result, c) < Modulus
  {
    Pow2Values();
    XorBelow((Multiplier * result) % Modulus, c as int, 31);
  }

  /** 2^7 is 128 and 2^31 is the modulus. */
  lemma Pow2Values()
    ensures Pow2(7) == 128 && Pow2(31) == Modulus
  {
    assert Pow2(4) == 16;
    assert Pow2(7) == 128;
    assert Pow2(8) == 256;
    PowAdd(8, 8);
    PowAdd(8, 7);
    PowAdd(16, 15);
  }

  lemma {:induction false} PowAdd(m: nat, n: nat)
    ensures Pow2(m + n) == Pow2(m) * Pow2(n)
    decreases m
  {
    if m > 0 {
      PowAdd(m - 1, n);
    }
  }

  /** The hash state after the rounds for every character of `s`, in order, starting from `seed`. */
  function Rounds(seed: nat, s: string): nat
    decreases |s|
  {
    if s == [] then seed else Round(Rounds(seed, s[..|s| - 1]), s[|s| - 1])
  }

  /** The id `key_to_id` derives for the key `s`. */
  function KeyHash(s: string): nat {
    Xor(Rounds(Seed(s), s), |s|)
  }

  /** The empty key has id 0. */
  lemma KeyHashEmpty()
    ensures KeyHash("") == 0
  {
  }

  /** Every key shorter than 2^31 characters gets an id that fits in 31 bits, so it is a valid `cache.id`. */
  lemma KeyHashBelow(s: string)
    requires |s| < Modulus
    ensures 0 <= KeyHash(s) < Modulus
  {
    Pow2Values();
    if s != [] {
      RoundBelow(Rounds(Seed(s), s[..|s| - 1]), s[|s| - 1]);
    }
    XorBelow(Rounds(Seed(s), s), |s|, 31);
  }

  /** A one-character key: one round from the shifted code, then the length 1 mixed in. */
  lemma KeyHashSingle(c: char)
    ensures KeyHash([c]) == Xor(Round((c as int) * 128, c), 1)
  {
    var s := [c];
    assert s[..0] == [];
    assert Seed(s) == (c as int) * 128;
    assert Rounds(Seed(s), s) == Round(Rounds(Seed(s), []), c);
  }

  /** The one-character key "a" hashes to 1678619104. */
  lemma KeyHashOfA()
    ensures KeyHash("a") == 1678619104
  {
    assert Round(97 * 128, 'a') == 1678619105 by {
      assert (Multiplier * (97 * 128)) % Modulus == 1678619008;
      Pow2Values();
      XorDisjoint(1678619008, 97, 7, 13114211);
    }
    assert KeyHash("a") == Xor(1678619105, 1) by {
      KeyHashSingle('a');
    }
    XorOne(1678619105);
  }

  /** The module-level `_id_to_key` dictionary: the last key hashed to each id. */
  class KeyRegistry {
    var idToKey: map<int, string>

    constructor()
      ensures idToKey == map[]
    {
      idToKey := map[];
    }

    /** `_id_to_key.get(id, '<unknown>')`. */
    function KeyFor(id: int): (k: string)
      reads this
      ensures id in idToKey ==> k == idToKey[id]
      ensures id !in idToKey ==> k == "<unknown>"
    {
      if id in idToKey then idToKey[id] else "<unknown>"
    }

    /** `key_to_id(s)`: hashes the key and records it as the key of the resulting id. */
    method KeyToId(s: string) returns (id: int)
      modifies this
      ensures id == KeyHash(s)
      ensures idToKey == old(idToKey)[id := s]
    {
      var result: nat := Seed(s);
      var seed := result;
      var i := 0;
      while i < |s|
        invariant 0 <= i <= |s|
        invariant result == Rounds(seed, s[..i])
      {
        assert s[..i + 1][..i] == s[..i];
        result := Xor((Multiplier * result) % Modulus, s[i] as int);
        i := i + 1;
      }
      assert s[..|s|] == s;
      id := Xor(result, |s|);
      idToKey := idToKey[id := s];
    }
  }
}
