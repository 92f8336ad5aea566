// The three hash tables of dpkg.c: names, packages and package status.
module DpkgTables {
  import opened Bits
  import opened Lz77
  import opened DpkgVersion
  import opened DpkgProbe

  // ---- make_hash ----

  const ULONG := 0x1_0000_0000_0000_0000

  // (key[i] * i) % 24
  function ShiftOf(c: nat, i: nat): (r: nat)
    ensures r < 24
  {
    c * i % 24
  }

  // What character i adds, after character b.
  function Term(c: nat, b: nat, i: nat): nat
  {
    Shl(c + b, ShiftOf(c, i))
  }

  function HashNum(key: Text): nat
  {
    var n := |key|;
    if n == 0 then 0
    else if n == 1 then key[0]
    else HashNum(key[..n - 1]) + Term(key[n - 1], key[n - 2], n - 1)
  }

  function HashStart(key: Text, p: nat): (s: nat)
    requires p >= 2
    ensures s < p
  {
    HashNum(key) % ULONG % 0x1_0000_0000 % p
  }

  function HashDec(key: Text, p: nat): (d: nat)
    requires p >= 2
    ensures 1 <= d < p
  {
    1 + HashNum(key) % ULONG % (p - 1)
  }

  method MakeHash(key: Text, p: nat) returns (start: nat, dec: nat)
    requires p >= 2
    ensures start == HashStart(key, p) && dec == HashDec(key, p)
  {
    hide Term;
    var h: nat := if key == [] then 0 else key[0];
    var i := 1;
    while i < |key|
      invariant 1 <= i && (i <= |key| ==> h == HashNum(key[..i])) && (i > |key| ==> key == [] && h == 0 && i == 1)
    {
      assert key[..i + 1][..i] == key[..i];
      h := h + Term(key[i], key[i - 1], i);
      i := i + 1;
    }
    assert key != [] ==> key[..|key|] == key;
    start := h % ULONG % 0x1_0000_0000 % p;
    dec := 1 + h % ULONG % (p - 1);
  }

  // ---- probing ----

  // The first k slots on the path are taken, by entries that are no hits.
  ghost predicate Missed<T>(table: seq<Option<T>>, start: nat, dec: nat, p: nat, k: nat, hit: T -> bool)
    requires start < p <= |table| && 1 <= dec < p
  {
    forall j | 0 <= j < k :: table[Probe(start, dec, p, j)].Some? && !hit(table[Probe(start, dec, p, j)].value)
  }

  // Slot s lies on the path, and all slots before it are taken.
  ghost predicate ReachedAt<T>(table: seq<Option<T>>, start: nat, dec: nat, p: nat, s: nat, k: nat)
    requires start < p <= |table| && 1 <= dec < p
  {
    k < p && Probe(start, dec, p, k) == s && forall j | 0 <= j < k :: table[Probe(start, dec, p, j)].Some?
  }

  ghost predicate Reached<T>(table: seq<Option<T>>, start: nat, dec: nat, p: nat, s: nat)
    requires start < p <= |table| && 1 <= dec < p
  {
    exists k: nat :: ReachedAt(table, start, dec, p, s, k)
  }

  // The loop that all three searches share. A free slot or a hit anywhere in the table makes it end; without either it
  // would go round for ever.
  method Search<T(==)>(table: array<Option<T>>, start: nat, dec: nat, p: nat, hit: T -> bool, ghost stop: nat)
    returns (slot: nat, ghost k: nat)
    requires Prime(p) && start < p <= table.Length && 1 <= dec < p
    requires stop < p && (table[stop] == None || hit(table[stop].value))
    ensures k < p && slot == Probe(start, dec, p, k) && Missed(table[..], start, dec, p, k, hit)
    ensures table[slot] == None || hit(table[slot].value)
  {
    hide Prime;
    ghost var end := ProbeCovers(start, dec, p, stop);
    slot, k := start, 0;
    while table[slot] != None
      invariant k <= end && slot == Probe(start, dec, p, k) && Missed(table[..], start, dec, p, k, hit)
      decreases end - k
    {
      if hit(table[slot].value) {
        return;
      }
      slot := if slot >= dec then slot - dec else slot - dec + p;
      k := k + 1;
    }
  }

  // A search cannot stop at a free slot before a reachable hit.
  lemma {:induction false} HitIsFound<T>(table: seq<Option<T>>, start: nat, dec: nat, p: nat, hit: T -> bool, k: nat, q: nat)
    requires start < p <= |table| && 1 <= dec < p && k < p && Missed(table, start, dec, p, k, hit)
    requires q < p && Reached(table, start, dec, p, q) && table[q].Some? && hit(table[q].value)
    ensures table[Probe(start, dec, p, k)].Some?
  {
    hide Probe;
    var kq: nat :| ReachedAt(table, start, dec, p, q, kq);
    if k < kq { assert table[Probe(start, dec, p, k)].Some?; }
  }

  // Filling a slot leaves every slot reachable.
  lemma {:induction false} StillReached<T>(table: seq<Option<T>>, start: nat, dec: nat, p: nat, s: nat, slot: nat, x: T)
    requires start < p <= |table| && 1 <= dec < p && slot < |table| && Reached(table, start, dec, p, s)
    ensures Reached(table[slot := Some(x)], start, dec, p, s)
  {
    hide Probe;
    var k: nat :| ReachedAt(table, start, dec, p, s, k);
    assert ReachedAt(table[slot := Some(x)], start, dec, p, s, k);
  }

  // ---- names ----

  ghost predicate NamesReached(slots: seq<Option<Text>>)
  {
    |slots| == NAME_HASH_PRIME + 1 &&
    forall s | 0 <= s < NAME_HASH_PRIME && slots[s].Some? ::
      var key := slots[s].value;
      Reached(slots, HashStart(key, NAME_HASH_PRIME), HashDec(key, NAME_HASH_PRIME), NAME_HASH_PRIME, s)
  }

  // No name is stored twice.
  ghost predicate NamesDistinct(slots: seq<Option<Text>>)
  {
    |slots| == NAME_HASH_PRIME + 1 &&
    forall s, t | 0 <= s < t < NAME_HASH_PRIME && slots[s].Some? && slots[t].Some? :: slots[s] != slots[t]
  }

  ghost predicate NamesValid(slots: seq<Option<Text>>)
  {
    NamesReached(slots) && NamesDistinct(slots)
  }

  lemma {:induction false} NoNames(slots: seq<Option<Text>>)
    requires |slots| == NAME_HASH_PRIME + 1 && forall s | 0 <= s < |slots| :: slots[s] == None
    ensures NamesValid(slots)
  {
  }

  // Indices are equal exactly for equal names.
  lemma {:induction false} IndexIsName(slots: seq<Option<Text>>, s: nat, t: nat)
    requires NamesValid(slots) && s < NAME_HASH_PRIME && t < NAME_HASH_PRIME && slots[s].Some? && slots[t].Some?
    ensures s == t <==> slots[s].value == slots[t].value
  {
    if s < t { assert slots[s] != slots[t]; } else if t < s { assert slots[t] != slots[s]; }
  }

  // A name that the search did not meet is not in the table.
  lemma {:induction false} NameAbsent(slots: seq<Option<Text>>, key: Text, k: nat, q: nat)
    requires NamesValid(slots) && k < NAME_HASH_PRIME && q < NAME_HASH_PRIME
    requires Missed(slots, HashStart(key, NAME_HASH_PRIME), HashDec(key, NAME_HASH_PRIME), NAME_HASH_PRIME, k, s => s == key)
    requires slots[Probe(HashStart(key, NAME_HASH_PRIME), HashDec(key, NAME_HASH_PRIME), NAME_HASH_PRIME, k)] == None
    ensures slots[q] != Some(key)
  {
    hide Probe, Missed, Reached, HashStart, HashDec;
    if slots[q] == Some(key) {
      HitIsFound(slots, HashStart(key, NAME_HASH_PRIME), HashDec(key, NAME_HASH_PRIME), NAME_HASH_PRIME, s => s == key, k, q);
    }
  }

  lemma {:induction false} NameAdded(slots: seq<Option<Text>>, key: Text, k: nat, slot: nat)
    requires NamesValid(slots) && k < NAME_HASH_PRIME
    requires Missed(slots, HashStart(key, NAME_HASH_PRIME), HashDec(key, NAME_HASH_PRIME), NAME_HASH_PRIME, k, s => s == key)
    requires slot == Probe(HashStart(key, NAME_HASH_PRIME), HashDec(key, NAME_HASH_PRIME), NAME_HASH_PRIME, k) && slots[slot] == None
    ensures NamesValid(slots[slot := Some(key)])
  {
    var p, t := NAME_HASH_PRIME, slots[slot := Some(key)];
    forall s | 0 <= s < p && t[s].Some?
      ensures Reached(t, HashStart(t[s].value, p), HashDec(t[s].value, p), p, s) {
      hide Probe, HashStart, HashDec;
      var n := t[s].value;
      if s == slot {
        assert ReachedAt(t, HashStart(key, p), HashDec(key, p), p, s, k);
      } else {
        StillReached(slots, HashStart(n, p), HashDec(n, p), p, s, slot, key);
      }
    }
    forall a, b | 0 <= a < b < p && t[a].Some? && t[b].Some? ensures t[a] != t[b] {
      hide Missed, Probe, HashStart, HashDec;
      NameAbsent(slots, key, k, if a == slot then b else a);
    }
  }

  // search_name_hashtable: the index of key, which is added if it is new. No index ever changes.
  method Intern(slots: array<Option<Text>>, key: Text, ghost stop: nat) returns (slot: nat)
    requires NamesValid(slots[..]) && stop < NAME_HASH_PRIME && (slots[stop] == None || slots[stop] == Some(key))
    modifies slots
    ensures NamesValid(slots[..]) && slot < NAME_HASH_PRIME && slots[..] == old(slots[..])[slot := Some(key)]
    ensures old(slots[slot]) == None || old(slots[slot]) == Some(key)
    ensures old(slots[slot]) == None ==> forall q | 0 <= q < NAME_HASH_PRIME :: old(slots[q]) != Some(key)
  {
    hide NamesValid, Prime, HashStart, HashDec, Missed, Probe, NamesReached, NamesDistinct;
    TablePrimes();
    NamesSize(slots[..]);
    var start, dec := MakeHash(key, NAME_HASH_PRIME);
    ghost var k;
    slot, k := Search(slots, start, dec, NAME_HASH_PRIME, s => s == key, stop);
    if slots[slot] == None {
      NameAdded(slots[..], key, k, slot);
      forall q | 0 <= q < NAME_HASH_PRIME ensures slots[q] != Some(key) { NameAbsent(slots[..], key, k, q); }
      slots[slot] := Some(key);
    }
  }

  lemma {:induction false} NamesSize(slots: seq<Option<Text>>)
    requires NamesValid(slots)
    ensures |slots| == NAME_HASH_PRIME + 1
  {
  }

  // ---- packages and status ----

  datatype EdgeType = Null | PreDepends | OrPreDepends | Depends | OrDepends | Replaces | Provides | Conflicts | Suggests
                    | Recommends | Enhances

  datatype Edge = Edge(kind: EdgeType, name: nat, version: nat, op: Operator)

  datatype Node = Node(name: nat, version: nat, edges: seq<Edge>)

  datatype StatusNode = StatusNode(package: nat, status: nat)

  // The string with a given index.
  function NameAt(names: seq<Option<Text>>, i: nat): Text
  {
    if i < |names| && names[i].Some? then names[i].value else []
  }

  function PackageName(names: seq<Option<Text>>, packages: seq<Option<Node>>, package: nat): Text
  {
    if package < |packages| && packages[package].Some? then NameAt(names, packages[package].value.name) else []
  }

  // Node n is what an edge asks for.
  predicate Matches(names: seq<Option<Text>>, n: Node, name: nat, version: nat, op: Operator)
  {
    n.name == name && (op == VerAny || TestVersion(NameAt(names, n.version), NameAt(names, version), op))
  }

  ghost predicate PackagesValid(names: seq<Option<Text>>, packages: seq<Option<Node>>)
  {
    |packages| == PACKAGE_HASH_PRIME + 1 &&
    forall s | 0 <= s < PACKAGE_HASH_PRIME && packages[s].Some? ::
      var key := NameAt(names, packages[s].value.name);
      Reached(packages, HashStart(key, PACKAGE_HASH_PRIME), HashDec(key, PACKAGE_HASH_PRIME), PACKAGE_HASH_PRIME, s)
  }

  ghost predicate StatusValid(names: seq<Option<Text>>, packages: seq<Option<Node>>, status: seq<Option<StatusNode>>)
  {
    |status| == STATUS_HASH_PRIME + 1 &&
    forall s | 0 <= s < STATUS_HASH_PRIME && status[s].Some? ::
      var key := PackageName(names, packages, status[s].value.package);
      Reached(status, HashStart(key, STATUS_HASH_PRIME), HashDec(key, STATUS_HASH_PRIME), STATUS_HASH_PRIME, s)
  }

  // No package has two status entries.
  ghost predicate StatusUnique(names: seq<Option<Text>>, packages: seq<Option<Node>>, status: seq<Option<StatusNode>>)
  {
    |status| == STATUS_HASH_PRIME + 1 &&
    forall s, t | 0 <= s < STATUS_HASH_PRIME && 0 <= t < STATUS_HASH_PRIME && status[s].Some? && status[t].Some?
      && PackageName(names, packages, status[s].value.package) == PackageName(names, packages, status[t].value.package) :: s == t
  }

  // search_package_hashtable: a slot whose package matches, or a free slot if no stored package does
  method SearchPackage(names: array<Option<Text>>, packages: array<Option<Node>>, name: nat, version: nat, op: Operator,
                       ghost stop: nat) returns (slot: nat)
    requires PackagesValid(names[..], packages[..]) && stop < PACKAGE_HASH_PRIME
    requires packages[stop] == None || Matches(names[..], packages[stop].value, name, version, op)
    ensures slot < PACKAGE_HASH_PRIME
    ensures packages[slot].Some? ==> Matches(names[..], packages[slot].value, name, version, op)
    ensures packages[slot] == None ==>
              forall q | 0 <= q < PACKAGE_HASH_PRIME && packages[q].Some? :: !Matches(names[..], packages[q].value, name, version, op)
    ensures var key := NameAt(names[..], name);
            Reached(packages[..], HashStart(key, PACKAGE_HASH_PRIME), HashDec(key, PACKAGE_HASH_PRIME), PACKAGE_HASH_PRIME, slot)
  {
    hide Prime, HashStart, HashDec, Missed, Probe, Reached, TestVersion;
    TablePrimes();
    var ns := names[..];
    var key := NameAt(ns, name);
    var start, dec := MakeHash(key, PACKAGE_HASH_PRIME);
    var hit := (n: Node) => Matches(ns, n, name, version, op);
    ghost var k;
    slot, k := Search(packages, start, dec, PACKAGE_HASH_PRIME, hit, stop);
    PathReached(packages[..], start, dec, PACKAGE_HASH_PRIME, k, hit);
    if packages[slot] == None {
      forall q | 0 <= q < PACKAGE_HASH_PRIME && packages[q].Some? ensures !Matches(ns, packages[q].value, name, version, op) {
        if Matches(ns, packages[q].value, name, version, op) {
          HitIsFound(packages[..], start, dec, PACKAGE_HASH_PRIME, hit, k, q);
        }
      }
    }
  }

  lemma {:induction false} PathReached<T>(table: seq<Option<T>>, start: nat, dec: nat, p: nat, k: nat, hit: T -> bool)
    requires start < p <= |table| && 1 <= dec < p && k < p && Missed(table, start, dec, p, k, hit)
    ensures Reached(table, start, dec, p, Probe(start, dec, p, k))
  {
    hide Probe;
    assert ReachedAt(table, start, dec, p, Probe(start, dec, p, k), k);
  }

  lemma {:induction false} PackageStored(names: seq<Option<Text>>, packages: seq<Option<Node>>, node: Node, num: nat)
    requires PackagesValid(names, packages) && num < PACKAGE_HASH_PRIME
    requires var key := NameAt(names, node.name);
             Reached(packages, HashStart(key, PACKAGE_HASH_PRIME), HashDec(key, PACKAGE_HASH_PRIME), PACKAGE_HASH_PRIME, num)
    ensures PackagesValid(names, packages[num := Some(node)])
  {
    hide HashStart, HashDec, Reached;
    var p, t := PACKAGE_HASH_PRIME, packages[num := Some(node)];
    forall s | 0 <= s < p && t[s].Some?
      ensures var key := NameAt(names, t[s].value.name); Reached(t, HashStart(key, p), HashDec(key, p), p, s) {
      var key := NameAt(names, t[s].value.name);
      StillReached(packages, HashStart(key, p), HashDec(key, p), p, s, num, node);
    }
  }

  // The end of fill_package_struct: a package replaces one of the same name and an equal version, or is added.
  method StorePackage(names: array<Option<Text>>, packages: array<Option<Node>>, node: Node, ghost stop: nat) returns (num: nat)
    requires PackagesValid(names[..], packages[..]) && stop < PACKAGE_HASH_PRIME
    requires packages[stop] == None || Matches(names[..], packages[stop].value, node.name, node.version, VerEqual)
    modifies packages
    ensures PackagesValid(names[..], packages[..]) && num < PACKAGE_HASH_PRIME && packages[..] == old(packages[..])[num := Some(node)]
    ensures old(packages[num]).Some? ==> Matches(names[..], old(packages[num]).value, node.name, node.version, VerEqual)
    ensures old(packages[num]) == None ==> forall q | 0 <= q < PACKAGE_HASH_PRIME && old(packages[q]).Some? ::
              !Matches(names[..], old(packages[q]).value, node.name, node.version, VerEqual)
  {
    hide HashStart, HashDec, Reached, TestVersion;
    num := SearchPackage(names, packages, node.name, node.version, VerEqual, stop);
    PackageStored(names[..], packages[..], node, num);
    packages[num] := Some(node);
  }

  // search_status_hashtable: the slot of the package called key, or a free slot if it has none
  method SearchStatus(names: array<Option<Text>>, packages: array<Option<Node>>, status: array<Option<StatusNode>>, key: Text,
                      ghost stop: nat) returns (slot: nat)
    requires StatusValid(names[..], packages[..], status[..]) && stop < STATUS_HASH_PRIME
    requires status[stop] == None || PackageName(names[..], packages[..], status[stop].value.package) == key
    ensures slot < STATUS_HASH_PRIME
    ensures status[slot].Some? ==> PackageName(names[..], packages[..], status[slot].value.package) == key
    ensures status[slot] == None ==> forall q | 0 <= q < STATUS_HASH_PRIME && status[q].Some? ::
              PackageName(names[..], packages[..], status[q].value.package) != key
    ensures Reached(status[..], HashStart(key, STATUS_HASH_PRIME), HashDec(key, STATUS_HASH_PRIME), STATUS_HASH_PRIME, slot)
  {
    hide Prime, HashStart, HashDec, Missed, Probe, Reached;
    TablePrimes();
    var ns, ps := names[..], packages[..];
    var start, dec := MakeHash(key, STATUS_HASH_PRIME);
    var hit := (n: StatusNode) => PackageName(ns, ps, n.package) == key;
    ghost var k;
    slot, k := Search(status, start, dec, STATUS_HASH_PRIME, hit, stop);
    PathReached(status[..], start, dec, STATUS_HASH_PRIME, k, hit);
    if status[slot] == None {
      forall q | 0 <= q < STATUS_HASH_PRIME && status[q].Some? ensures PackageName(ns, ps, status[q].value.package) != key {
        if PackageName(ns, ps, status[q].value.package) == key {
          HitIsFound(status[..], start, dec, STATUS_HASH_PRIME, hit, k, q);
        }
      }
    }
  }

  lemma {:induction false} StatusStored(names: seq<Option<Text>>, packages: seq<Option<Node>>, status: seq<Option<StatusNode>>,
                                        node: StatusNode, num: nat)
    requires StatusValid(names, packages, status) && num < STATUS_HASH_PRIME
    requires var key := PackageName(names, packages, node.package);
             Reached(status, HashStart(key, STATUS_HASH_PRIME), HashDec(key, STATUS_HASH_PRIME), STATUS_HASH_PRIME, num)
    ensures StatusValid(names, packages, status[num := Some(node)])
  {
    hide HashStart, HashDec, Reached, PackageName;
    var p, t := STATUS_HASH_PRIME, status[num := Some(node)];
    forall s | 0 <= s < p && t[s].Some?
      ensures var key := PackageName(names, packages, t[s].value.package); Reached(t, HashStart(key, p), HashDec(key, p), p, s) {
      var key := PackageName(names, packages, t[s].value.package);
      StillReached(status, HashStart(key, p), HashDec(key, p), p, s, num, node);
    }
  }

  // The end of index_status_file: a status replaces the one of the same package, or is added.
  method StoreStatus(names: array<Option<Text>>, packages: array<Option<Node>>, status: array<Option<StatusNode>>,
                     node: StatusNode, ghost stop: nat) returns (num: nat)
    requires StatusValid(names[..], packages[..], status[..]) && StatusUnique(names[..], packages[..], status[..])
    requires stop < STATUS_HASH_PRIME
    requires status[stop] == None || PackageName(names[..], packages[..], status[stop].value.package)
                                     == PackageName(names[..], packages[..], node.package)
    modifies status
    ensures StatusValid(names[..], packages[..], status[..]) && StatusUnique(names[..], packages[..], status[..])
    ensures num < STATUS_HASH_PRIME && status[..] == old(status[..])[num := Some(node)]
  {
    hide HashStart, HashDec, Reached, PackageName, StatusValid;
    var key := PackageName(names[..], packages[..], node.package);
    num := SearchStatus(names, packages, status, key, stop);
    StatusStored(names[..], packages[..], status[..], node, num);
    status[num] := Some(node);
  }
}
