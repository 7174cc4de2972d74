/**
 The integer hash of the maps.  It is a bijection, so the maps can store hashes instead of keys
 and recover the key from the hash; the tables of this project are therefore stated over hashes.
 */
module Avalanche {
  function Shift16(h: bv32): bv32 { h ^ (h >> 16) }

  function Shift13(h: bv32): bv32 { h ^ (h >> 13) }

  function Unshift13(h: bv32): bv32 { h ^ ((h ^ (h >> 13)) >> 13) }

  function Shift33(h: bv64): bv64 { h ^ (h >> 33) }

  function MultiplyA32(h: bv32): bv32 { h * 0x85ebca6b }

  function MultiplyB32(h: bv32): bv32 { h * 0xc2b2ae35 }

  function DivideB32(h: bv32): bv32 { h * 0x7ed1b41d }

  function DivideA32(h: bv32): bv32 { h * 0xa5cb9243 }

  function MultiplyA64(h: bv64): bv64 { h * 0xff51afd7ed558ccd }

  function MultiplyB64(h: bv64): bv64 { h * 0xc4ceb9fe1a85ec53 }

  function DivideB64(h: bv64): bv64 { h * 0x9cb4b2f8129337db }

  function DivideA64(h: bv64): bv64 { h * 0x4f74430c22a54005 }

  function Avalanche32(h: bv32): bv32 {
    Shift16(MultiplyB32(Shift13(MultiplyA32(Shift16(h)))))
  }

  function Deavalanche32(h: bv32): bv32 {
    Shift16(DivideA32(Unshift13(DivideB32(Shift16(h)))))
  }

  function Avalanche64(h: bv64): bv64 {
    Shift33(MultiplyB64(Shift33(MultiplyA64(Shift33(h)))))
  }

  function Deavalanche64(h: bv64): bv64 {
    Shift33(DivideA64(Shift33(DivideB64(Shift33(h)))))
  }

  // ---------------------------------------------------------------- the single steps

  lemma Shifts32(h: bv32)
    ensures Shift16(Shift16(h)) == h && Unshift13(Shift13(h)) == h && Shift13(Unshift13(h)) == h
  {
    calc {
      Shift16(Shift16(h));
      Shift16(h ^ (h >> 16));
      (h ^ (h >> 16)) ^ ((h ^ (h >> 16)) >> 16);
      h;
    }
    calc {
      Unshift13(Shift13(h));
      Unshift13(h ^ (h >> 13));
      var g := h ^ (h >> 13); g ^ ((g ^ (g >> 13)) >> 13);
      h;
    }
    calc {
      Shift13(Unshift13(h));
      Shift13(h ^ ((h ^ (h >> 13)) >> 13));
      var g := h ^ ((h ^ (h >> 13)) >> 13); g ^ (g >> 13);
      h;
    }
  }

  lemma Xor64(h: bv64)
    ensures (h ^ (h >> 33)) ^ ((h ^ (h >> 33)) >> 33) == h
  {
    assert (h ^ (h >> 33)) >> 33 == h >> 33;
  }

  lemma Shifts64(h: bv64)
    ensures Shift33(Shift33(h)) == h
  {
    calc {
      Shift33(Shift33(h));
      Shift33(h ^ (h >> 33));
      (h ^ (h >> 33)) ^ ((h ^ (h >> 33)) >> 33);
      { Xor64(h); }
      h;
    }
  }

  lemma FactorA32(h: bv32)
    ensures DivideA32(MultiplyA32(h)) == h && MultiplyA32(DivideA32(h)) == h
  {
    calc {
      DivideA32(MultiplyA32(h));
      DivideA32(h * 0x85ebca6b);
      (h * 0x85ebca6b) * 0xa5cb9243;
      h;
    }
    calc {
      MultiplyA32(DivideA32(h));
      MultiplyA32(h * 0xa5cb9243);
      (h * 0xa5cb9243) * 0x85ebca6b;
      h;
    }
  }

  lemma FactorB32(h: bv32)
    ensures DivideB32(MultiplyB32(h)) == h && MultiplyB32(DivideB32(h)) == h
  {
    calc {
      DivideB32(MultiplyB32(h));
      DivideB32(h * 0xc2b2ae35);
      (h * 0xc2b2ae35) * 0x7ed1b41d;
      h;
    }
    calc {
      MultiplyB32(DivideB32(h));
      MultiplyB32(h * 0x7ed1b41d);
      (h * 0x7ed1b41d) * 0xc2b2ae35;
      h;
    }
  }

  lemma FactorA64(h: bv64)
    ensures DivideA64(MultiplyA64(h)) == h && MultiplyA64(DivideA64(h)) == h
  {
    calc {
      DivideA64(MultiplyA64(h));
      DivideA64(h * 0xff51afd7ed558ccd);
      (h * 0xff51afd7ed558ccd) * 0x4f74430c22a54005;
      h;
    }
    calc {
      MultiplyA64(DivideA64(h));
      MultiplyA64(h * 0x4f74430c22a54005);
      (h * 0x4f74430c22a54005) * 0xff51afd7ed558ccd;
      h;
    }
  }

  lemma FactorB64(h: bv64)
    ensures DivideB64(MultiplyB64(h)) == h && MultiplyB64(DivideB64(h)) == h
  {
    calc {
      DivideB64(MultiplyB64(h));
      DivideB64(h * 0xc4ceb9fe1a85ec53);
      (h * 0xc4ceb9fe1a85ec53) * 0x9cb4b2f8129337db;
      h;
    }
    calc {
      MultiplyB64(DivideB64(h));
      MultiplyB64(h * 0x9cb4b2f8129337db);
      (h * 0x9cb4b2f8129337db) * 0xc4ceb9fe1a85ec53;
      h;
    }
  }

  // ---------------------------------------------------------------- both directions

  lemma Undo32(h: bv32)
    ensures Deavalanche32(Avalanche32(h)) == h
  {
    hide Shift16, Shift13, Unshift13, MultiplyA32, MultiplyB32, DivideA32, DivideB32;
    var a := Shift16(h);
    var b := MultiplyA32(a);
    var c := Shift13(b);
    Shifts32(MultiplyB32(c));
    FactorB32(c);
    Shifts32(b);
    FactorA32(a);
    Shifts32(h);
  }

  lemma Redo32(h: bv32)
    ensures Avalanche32(Deavalanche32(h)) == h
  {
    hide Shift16, Shift13, Unshift13, MultiplyA32, MultiplyB32, DivideA32, DivideB32;
    var a := Shift16(h);
    var b := DivideB32(a);
    var c := Unshift13(b);
    Shifts32(DivideA32(c));
    FactorA32(c);
    Shifts32(b);
    FactorB32(a);
    Shifts32(h);
  }

  lemma Undo64(h: bv64)
    ensures Deavalanche64(Avalanche64(h)) == h
  {
    hide Shift33, MultiplyA64, MultiplyB64, DivideA64, DivideB64;
    var a := Shift33(h);
    var b := MultiplyA64(a);
    var c := Shift33(b);
    Shifts64(MultiplyB64(c));
    FactorB64(c);
    Shifts64(b);
    FactorA64(a);
    Shifts64(h);
  }

  lemma Redo64(h: bv64)
    ensures Avalanche64(Deavalanche64(h)) == h
  {
    hide Shift33, MultiplyA64, MultiplyB64, DivideA64, DivideB64;
    var a := Shift33(h);
    var b := DivideB64(a);
    var c := Shift33(b);
    Shifts64(DivideA64(c));
    FactorA64(c);
    Shifts64(b);
    FactorB64(a);
    Shifts64(h);
  }

  /** Different keys have different hashes, every word is the hash of a key, and only the null key has the null hash. */
  lemma HashIsBijective32(key: bv32, other: bv32)
    ensures Avalanche32(key) == Avalanche32(other) <==> key == other
    ensures exists k: bv32 :: Avalanche32(k) == other
    ensures Avalanche32(key) == 0 <==> key == 0
  {
    assert Avalanche32(0) == 0;
    hide Avalanche32, Deavalanche32;
    Undo32(key);
    Undo32(other);
    Undo32(0);
    Redo32(other);
  }

  lemma HashIsBijective64(key: bv64, other: bv64)
    ensures Avalanche64(key) == Avalanche64(other) <==> key == other
    ensures exists k: bv64 :: Avalanche64(k) == other
    ensures Avalanche64(key) == 0 <==> key == 0
  {
    assert Avalanche64(0) == 0;
    hide Avalanche64, Deavalanche64;
    Undo64(key);
    Undo64(other);
    Undo64(0);
    Redo64(other);
  }
}
