/**
 Which algorithms the command line selects, and in which order their sums
 are shown (xhash.go). The flag values are inputs; registering and parsing
 them is not modelled.
 */
module Selection {

  /** The algorithm table: each name with its digest size in bytes (xhash.go:38-61). */
  const Hashes: map<string, nat> := map[
    "BLAKE2b256" := 32, "BLAKE2b384" := 48, "BLAKE2b512" := 64, "BLAKE2s256" := 32,
    "MD4" := 16, "MD5" := 16, "RIPEMD160" := 20, "SHA1" := 20,
    "SHA224" := 28, "SHA256" := 32, "SHA384" := 48, "SHA512" := 64,
    "SHA512-224" := 28, "SHA512-256" := 32,
    "SHA3-224" := 28, "SHA3-256" := 32, "SHA3-384" := 48, "SHA3-512" := 64
  ]

  /** The size groups, in bits, that get a flag of their own (xhash.go:88-98). */
  const SizeKeys: set<int> := {128, 160, 224, 256, 384, 512}

  datatype Family = Sha3 | Sha2 | Blake2 | NoFamily

  /** strings.HasPrefix. */
  predicate HasPrefix(s: string, prefix: string)
  {
    |prefix| <= |s| && s[..|prefix|] == prefix
  }

  /** The family of a name, decided in the order of xhash.go:101-107. */
  function FamilyOf(h: string): Family
  {
    if HasPrefix(h, "SHA3-") then Sha3
    else if HasPrefix(h, "SHA2") || HasPrefix(h, "SHA384") || HasPrefix(h, "SHA512") then Sha2
    else if HasPrefix(h, "BLAKE2") then Blake2
    else NoFamily
  }

  /** The table names of one family. */
  function FamilyMembers(f: Family): set<string>
  {
    set h | h in Hashes && FamilyOf(h) == f
  }

  /** The table names whose digest has `bits` bits (xhash.go:108). */
  function SizeGroup(bits: int): set<string>
  {
    set h | h in Hashes && Hashes[h] * 8 == bits
  }

  /**
   The flag values after parsing: the individually named algorithms, the
   size groups set, the three family flags and -all.
   */
  datatype Flags = Flags(names: set<string>, sizes: set<int>, sha3: bool, sha2: bool, blake2: bool, all: bool)

  /** Whether the family's flag is set; a name in no family has none. */
  predicate FamilyFlag(fl: Flags, f: Family)
  {
    match f
    case Sha3 => fl.sha3
    case Sha2 => fl.sha2
    case Blake2 => fl.blake2
    case NoFamily => false
  }

  /** The names marked chosen once the groups are expanded: named, or in a set size or family group. */
  function Chosen(fl: Flags): set<string>
  {
    set h | h in Hashes && (h in fl.names || Hashes[h] * 8 in fl.sizes || FamilyFlag(fl, FamilyOf(h)))
  }

  /** Every digest size in the table falls into one of the size groups. */
  lemma SizeGroupsCover()
    ensures forall h :: h in Hashes ==> Hashes[h] * 8 in SizeKeys
  {
  }

  /** The size groups partition the table. */
  lemma SizeGroupsPartition()
    ensures forall h :: h in Hashes ==> exists bits :: bits in SizeKeys && h in SizeGroup(bits)
    ensures forall h, b1, b2 :: h in SizeGroup(b1) && h in SizeGroup(b2) ==> b1 == b2
  {
    SizeGroupsCover();
    forall h | h in Hashes
      ensures exists bits :: bits in SizeKeys && h in SizeGroup(bits)
    {
      assert h in SizeGroup(Hashes[h] * 8);
    }
  }

  /** A name that differs from a prefix at some position does not start with it. */
  lemma NotPrefixAt(s: string, prefix: string, i: nat)
    requires i < |prefix| && i < |s| && s[i] != prefix[i]
    ensures !HasPrefix(s, prefix)
  {
  }

  /** A name whose character at position i is in none of the SHA prefixes there is not a SHA-2 or SHA-3 name. */
  lemma NoShaPrefix(s: string, i: nat)
    requires i < 4 && i < |s|
    requires s[i] != "SHA3-"[i] && s[i] != "SHA2"[i] && s[i] != "SHA384"[i] && s[i] != "SHA512"[i]
    ensures !HasPrefix(s, "SHA3-") && !HasPrefix(s, "SHA2") && !HasPrefix(s, "SHA384") && !HasPrefix(s, "SHA512")
  {
    NotPrefixAt(s, "SHA3-", i);
    NotPrefixAt(s, "SHA2", i);
    NotPrefixAt(s, "SHA384", i);
    NotPrefixAt(s, "SHA512", i);
  }

  /** The family of each name in the table (xhash.go:100-107), one group at a time. */
  lemma Sha3Names()
    ensures FamilyOf("SHA3-224") == Sha3 && FamilyOf("SHA3-256") == Sha3
    ensures FamilyOf("SHA3-384") == Sha3 && FamilyOf("SHA3-512") == Sha3
  {
  }

  lemma Sha2Names()
    ensures FamilyOf("SHA224") == Sha2 && FamilyOf("SHA256") == Sha2 && FamilyOf("SHA384") == Sha2
    ensures FamilyOf("SHA512") == Sha2 && FamilyOf("SHA512-224") == Sha2 && FamilyOf("SHA512-256") == Sha2
  {
    NotPrefixAt("SHA224", "SHA3-", 3);
    NotPrefixAt("SHA256", "SHA3-", 3);
    NotPrefixAt("SHA384", "SHA3-", 4);
    NotPrefixAt("SHA512", "SHA3-", 3);
    NotPrefixAt("SHA512-224", "SHA3-", 3);
    NotPrefixAt("SHA512-256", "SHA3-", 3);
  }

  lemma Blake2Names()
    ensures FamilyOf("BLAKE2b256") == Blake2 && FamilyOf("BLAKE2b384") == Blake2
    ensures FamilyOf("BLAKE2b512") == Blake2 && FamilyOf("BLAKE2s256") == Blake2
  {
    NoShaPrefix("BLAKE2b256", 0);
    NoShaPrefix("BLAKE2b384", 0);
    NoShaPrefix("BLAKE2b512", 0);
    NoShaPrefix("BLAKE2s256", 0);
  }

  lemma UnfamiliedNames()
    ensures FamilyOf("MD4") == NoFamily && FamilyOf("MD5") == NoFamily
    ensures FamilyOf("RIPEMD160") == NoFamily && FamilyOf("SHA1") == NoFamily
  {
    NoShaPrefix("MD4", 0);
    NoShaPrefix("MD5", 0);
    NoShaPrefix("RIPEMD160", 0);
    NoShaPrefix("SHA1", 3);
    NotPrefixAt("MD4", "BLAKE2", 0);
    NotPrefixAt("MD5", "BLAKE2", 0);
    NotPrefixAt("RIPEMD160", "BLAKE2", 0);
    NotPrefixAt("SHA1", "BLAKE2", 0);
  }

  /** The table's names, one by one. */
  lemma InTable(h: string)
    requires h in Hashes
    ensures h in {"SHA3-224", "SHA3-256", "SHA3-384", "SHA3-512"}
         || h in {"SHA224", "SHA256", "SHA384", "SHA512", "SHA512-224", "SHA512-256"}
         || h in {"BLAKE2b256", "BLAKE2b384", "BLAKE2b512", "BLAKE2s256"}
         || h in {"MD4", "MD5", "RIPEMD160", "SHA1"}
  {
  }

  /** The family of every table name: the four groups the prefix tests produce. */
  lemma FamilyOfTable(h: string)
    requires h in Hashes
    ensures FamilyOf(h) == Sha3 <==> h in {"SHA3-224", "SHA3-256", "SHA3-384", "SHA3-512"}
    ensures FamilyOf(h) == Sha2 <==> h in {"SHA224", "SHA256", "SHA384", "SHA512", "SHA512-224", "SHA512-256"}
    ensures FamilyOf(h) == Blake2 <==> h in {"BLAKE2b256", "BLAKE2b384", "BLAKE2b512", "BLAKE2s256"}
    ensures FamilyOf(h) == NoFamily <==> h in {"MD4", "MD5", "RIPEMD160", "SHA1"}
  {
    InTable(h);
    Sha3Names();
    Sha2Names();
    Blake2Names();
    UnfamiliedNames();
  }

  /** The SHA-3 group: exactly the names starting "SHA3-". */
  lemma Sha3Members()
    ensures FamilyMembers(Sha3) == {"SHA3-224", "SHA3-256", "SHA3-384", "SHA3-512"}
  {
    forall h | h in Hashes
      ensures FamilyOf(h) == Sha3 <==> h in {"SHA3-224", "SHA3-256", "SHA3-384", "SHA3-512"}
    {
      FamilyOfTable(h);
    }
  }

  /** The SHA-2 group, which takes SHA-512/224 and SHA-512/256 by their "SHA512" prefix. */
  lemma Sha2Members()
    ensures FamilyMembers(Sha2) == {"SHA224", "SHA256", "SHA384", "SHA512", "SHA512-224", "SHA512-256"}
  {
    forall h | h in Hashes
      ensures FamilyOf(h) == Sha2 <==> h in {"SHA224", "SHA256", "SHA384", "SHA512", "SHA512-224", "SHA512-256"}
    {
      FamilyOfTable(h);
    }
  }

  lemma Blake2Members()
    ensures FamilyMembers(Blake2) == {"BLAKE2b256", "BLAKE2b384", "BLAKE2b512", "BLAKE2s256"}
  {
    forall h | h in Hashes
      ensures FamilyOf(h) == Blake2 <==> h in {"BLAKE2b256", "BLAKE2b384", "BLAKE2b512", "BLAKE2s256"}
    {
      FamilyOfTable(h);
    }
  }

  /** MD4, MD5, RIPEMD160 and SHA1 are in no family group. */
  lemma Unfamilied()
    ensures FamilyMembers(NoFamily) == {"MD4", "MD5", "RIPEMD160", "SHA1"}
  {
    forall h | h in Hashes
      ensures FamilyOf(h) == NoFamily <==> h in {"MD4", "MD5", "RIPEMD160", "SHA1"}
    {
      FamilyOfTable(h);
    }
  }

  /** The names the expansion loops of xhash.go:128-135 have marked after visiting the size groups in `done`. */
  function MarkedBySizes(fl: Flags, done: set<int>): set<string>
  {
    set h | h in Hashes && (h in fl.names || Hashes[h] * 8 in fl.sizes * done)
  }

  /** Visiting one more size group adds its members exactly when its flag is set. */
  lemma MarkedBySizesStep(fl: Flags, done: set<int>, bits: int)
    ensures MarkedBySizes(fl, done + {bits}) ==
            MarkedBySizes(fl, done) + (if bits in fl.sizes then SizeGroup(bits) else {})
  {
  }

  /** Once every size group has been visited, the marks are those of the size flags and the names. */
  lemma MarkedByAllSizes(fl: Flags)
    ensures Chosen(fl) == MarkedBySizes(fl, SizeKeys)
                          + (if fl.sha3 then FamilyMembers(Sha3) else {})
                          + (if fl.sha2 then FamilyMembers(Sha2) else {})
                          + (if fl.blake2 then FamilyMembers(Blake2) else {})
  {
    SizeGroupsCover();
  }

  /** The size-group loop of xhash.go:128-135, visiting the groups in any order. */
  method ExpandSizes(fl: Flags) returns (chosen: set<string>)
    ensures chosen == MarkedBySizes(fl, SizeKeys)
  {
    chosen := fl.names * Hashes.Keys;
    var remaining := SizeKeys;
    ghost var done: set<int> := {};
    while remaining != {}
      invariant remaining + done == SizeKeys && remaining * done == {}
      invariant chosen == MarkedBySizes(fl, done)
      decreases |remaining|
    {
      var bits :| bits in remaining;
      MarkedBySizesStep(fl, done, bits);
      if bits in fl.sizes {
        chosen := chosen + SizeGroup(bits);
      }
      remaining := remaining - {bits};
      done := done + {bits};
    }
  }

  /**
   Group expansion (xhash.go:128-151): the size groups, then every family
   whose flag is set marks its members.
   */
  method Expand(fl: Flags) returns (chosen: set<string>)
    ensures chosen == Chosen(fl)
  {
    chosen := ExpandSizes(fl);
    MarkedByAllSizes(fl);
    if fl.sha3 {
      chosen := chosen + FamilyMembers(Sha3);
    }
    if fl.sha2 {
      chosen := chosen + FamilyMembers(Sha2);
    }
    if fl.blake2 {
      chosen := chosen + FamilyMembers(Blake2);
    }
  }

  /** The rule of xhash.go:153-161: with nothing chosen every name is kept; -all turns choices into exclusions. */
  function Kept(chosen: set<string>, all: bool): set<string>
  {
    var everything := all || chosen == {};
    set h | h in Hashes && everything != (h in chosen)
  }

  /** The deletion loop of xhash.go:157-161, over the names in any order. */
  method Filter(chosen: set<string>, all: bool) returns (kept: set<string>)
    requires chosen <= Hashes.Keys
    ensures kept == set h | h in Hashes && all != (h in chosen)
  {
    kept := Hashes.Keys;
    var todo := Hashes.Keys;
    while todo != {}
      invariant todo <= Hashes.Keys
      invariant kept == set h | h in Hashes && (h in todo || all != (h in chosen))
      decreases |todo|
    {
      var h :| h in todo;
      if (all && h in chosen) || !(all || h in chosen) {
        kept := kept - {h};
      }
      todo := todo - {h};
    }
  }

  /** Without -all and with something chosen, exactly the chosen names are kept. */
  lemma KeptWithoutAll(chosen: set<string>)
    requires chosen != {} && chosen <= Hashes.Keys
    ensures Kept(chosen, false) == chosen
  {
  }

  /** Under -all every name is kept except the chosen ones. */
  lemma KeptUnderAll(chosen: set<string>)
    ensures Kept(chosen, true) == Hashes.Keys - chosen
  {
  }

  /** With nothing chosen, every name is kept whether or not -all was given. */
  lemma KeptByDefault(all: bool)
    ensures Kept({}, all) == Hashes.Keys
  {
  }

  /** Nothing is left exactly when -all is given and every name is also chosen. */
  lemma KeptEmpty(chosen: set<string>, all: bool)
    requires chosen <= Hashes.Keys
    ensures Kept(chosen, all) == {} <==> all && chosen == Hashes.Keys
  {
    if all && chosen != Hashes.Keys {
      var h :| h in Hashes.Keys && h !in chosen;
      assert h in Kept(chosen, all);
    }
    if !all && chosen != {} {
      var h :| h in chosen;
      assert h in Kept(chosen, all);
    }
    if chosen == {} {
      assert "MD5" in Kept(chosen, all);
    }
  }

  // ---------------------------------------------------------------------
  // The sorted key order (xhash.go:163-164, 205)

  /** sort.Strings' order: lexicographic by character code, a proper prefix first. */
  predicate Below(a: string, b: string)
    decreases |a|
  {
    if |a| == 0 then |b| > 0
    else |b| > 0 && (a[0] < b[0] || (a[0] == b[0] && Below(a[1..], b[1..])))
  }

  lemma {:induction false} BelowIrreflexive(a: string)
    ensures !Below(a, a)
    decreases |a|
  {
    if |a| > 0 {
      BelowIrreflexive(a[1..]);
    }
  }

  lemma {:induction false} BelowTransitive(a: string, b: string, c: string)
    requires Below(a, b) && Below(b, c)
    ensures Below(a, c)
    decreases |a|
  {
    if |a| > 0 && a[0] == b[0] && b[0] == c[0] {
      BelowTransitive(a[1..], b[1..], c[1..]);
    }
  }

  lemma {:induction false} BelowTotal(a: string, b: string)
    ensures a == b || Below(a, b) || Below(b, a)
    decreases |a|
  {
    if |a| > 0 && |b| > 0 && a[0] == b[0] {
      BelowTotal(a[1..], b[1..]);
      if a[1..] == b[1..] {
        assert a == [a[0]] + a[1..] && b == [b[0]] + b[1..];
      }
    }
  }

  /** Strictly increasing in sort.Strings' order, hence without repeats. */
  predicate StrictlySorted(s: seq<string>)
  {
    forall i, j :: 0 <= i < j < |s| ==> Below(s[i], s[j])
  }

  /** Insert a new name into a sorted sequence at its place. */
  function Insert(s: seq<string>, x: string): (r: seq<string>)
    requires StrictlySorted(s) && x !in s
    ensures StrictlySorted(r)
    ensures |r| == |s| + 1
    ensures forall y :: y in r <==> y in s || y == x
    decreases |s|
  {
    if |s| == 0 then [x]
    else if Below(x, s[0]) then
      assert forall j :: 0 <= j < |s| ==> Below(x, s[j]) by {
        forall j | 0 <= j < |s|
          ensures Below(x, s[j])
        {
          if j > 0 {
            BelowTransitive(x, s[0], s[j]);
          }
        }
      }
      [x] + s
    else
      BelowTotal(x, s[0]);
      var rest := Insert(s[1..], x);
      assert forall y :: y in rest ==> Below(s[0], y) by {
        forall y | y in rest
          ensures Below(s[0], y)
        {
          if y != x {
            assert y in s[1..];
            var j :| 0 <= j < |s[1..]| && s[1..][j] == y;
            assert s[j + 1] == y;
          }
        }
      }
      [s[0]] + rest
  }

  /** Collect the kept names and sort them (xhash.go:163-164, 205). */
  method SortedKeys(names: set<string>) returns (keys: seq<string>)
    ensures StrictlySorted(keys)
    ensures forall k :: k in keys <==> k in names
    ensures |keys| == |names|
  {
    keys := [];
    var remaining := names;
    while remaining != {}
      invariant StrictlySorted(keys)
      invariant forall k :: k in keys <==> k in names && k !in remaining
      invariant remaining <= names
      invariant |keys| + |remaining| == |names|
      decreases |remaining|
    {
      var k :| k in remaining;
      keys := Insert(keys, k);
      remaining := remaining - {k};
    }
  }

  /**
   Two strictly sorted sequences with the same names are equal, so the
   order in which the map is walked does not change the key order.
   */
  lemma {:induction false} SortedUnique(a: seq<string>, b: seq<string>)
    requires StrictlySorted(a) && StrictlySorted(b)
    requires |a| == |b|
    requires forall k :: k in a <==> k in b
    ensures a == b
    decreases |a|
  {
    if |a| > 0 {
      assert a[0] in b;
      assert b[0] in a;
      var i :| 0 <= i < |b| && b[i] == a[0];
      var m :| 0 <= m < |a| && a[m] == b[0];
      if i > 0 && m > 0 {
        BelowTransitive(a[0], b[0], a[0]);
        BelowIrreflexive(a[0]);
      }
      assert a[0] == b[0];
      forall k
        ensures k in a[1..] <==> k in b[1..]
      {
        if k in a[1..] {
          var j :| 0 <= j < |a[1..]| && a[1..][j] == k;
          assert Below(a[0], a[j + 1]);
          BelowIrreflexive(k);
          assert k != b[0];
          assert k in b;
        }
        if k in b[1..] {
          var j :| 0 <= j < |b[1..]| && b[1..][j] == k;
          assert Below(b[0], b[j + 1]);
          BelowIrreflexive(k);
          assert k != a[0];
          assert k in a;
        }
      }
      SortedUnique(a[1..], b[1..]);
      assert a == [a[0]] + a[1..] && b == [b[0]] + b[1..];
    }
  }

  /** The outcome of selection: the usage message and exit status 1, or the sorted names to run. */
  datatype Selected = Usage | Run(keys: seq<string>)

  /** The selection rule of xhash.go:128-164 and 205-210. */
  method Select(fl: Flags) returns (s: Selected)
    ensures s.Usage? <==> fl.all && Chosen(fl) == Hashes.Keys
    ensures s.Run? ==> StrictlySorted(s.keys)
    ensures s.Run? && !fl.all && Chosen(fl) != {} ==> forall k :: k in s.keys <==> k in Chosen(fl)
    ensures s.Run? && fl.all ==> forall k :: k in s.keys <==> k in Hashes && k !in Chosen(fl)
    ensures s.Run? && Chosen(fl) == {} ==> forall k :: k in s.keys <==> k in Hashes
  {
    var chosen := Expand(fl);
    var all := fl.all;
    if !(all || chosen != {}) {
      all := true;
    }
    var kept := Filter(chosen, all);
    assert kept == Kept(chosen, fl.all);
    KeptEmpty(chosen, fl.all);
    if !fl.all && chosen != {} {
      KeptWithoutAll(chosen);
    }
    if fl.all {
      KeptUnderAll(chosen);
    }
    if chosen == {} {
      KeptByDefault(fl.all);
    }
    var keys := SortedKeys(kept);
    if |keys| == 0 {
      s := Usage;
    } else {
      s := Run(keys);
    }
  }

  // ---------------------------------------------------------------------
  // display (xhash.go:253-257)

  /** The output: each selected algorithm's formatted sum, in key order. */
  function Display(keys: seq<string>, sums: map<string, string>): string
    requires forall k :: k in keys ==> k in sums
    decreases |keys|
  {
    if |keys| == 0 then "" else sums[keys[0]] + Display(keys[1..], sums)
  }

  lemma {:induction false} DisplayAppend(a: seq<string>, b: seq<string>, sums: map<string, string>)
    requires forall k :: k in a + b ==> k in sums
    ensures Display(a + b, sums) == Display(a, sums) + Display(b, sums)
    decreases |a|
  {
    if |a| > 0 {
      assert (a + b)[1..] == a[1..] + b;
      DisplayAppend(a[1..], b, sums);
    } else {
      assert a + b == b;
    }
  }

  /** The sum of the i-th key is written after those of every earlier key and before those of every later one. */
  lemma DisplayAt(keys: seq<string>, sums: map<string, string>, i: nat)
    requires forall k :: k in keys ==> k in sums
    requires i < |keys|
    ensures Display(keys, sums) == Display(keys[..i], sums) + sums[keys[i]] + Display(keys[i + 1..], sums)
  {
    assert keys == keys[..i] + keys[i..];
    DisplayAppend(keys[..i], keys[i..], sums);
    assert keys[i..][1..] == keys[i + 1..];
  }
}
