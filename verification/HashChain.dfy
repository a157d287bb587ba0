/** Hash chains in the abstract: sequences of links, each carrying the previous hash. */
module HashChain {
  import Words

  const GENESIS := ""

  /** One record as the chain sees it; NoLink is a record that is broken in itself. */
  datatype Link = NoLink | Link(prev: string, hash: string, seqNo: nat, bytes: string)

  function HashOf(l: Link): string { if l.Link? then l.hash else GENESIS }

  /** The hash the record after ls must link to. */
  function Head(ls: seq<Link>): string {
    if ls == [] then GENESIS else HashOf(ls[|ls| - 1])
  }

  predicate LinksTo(l: Link, head: string, position: nat) {
    l.Link? && l.prev == head && l.seqNo == position % Words.UINT64
  }

  predicate LinkedAt(ls: seq<Link>, i: nat)
    requires i < |ls|
  {
    LinksTo(ls[i], Head(ls[..i]), i + 1)
  }

  /** Linked to the record before, and numbered 1, 2, 3 in 64 bits. */
  predicate Linked(ls: seq<Link>) {
    forall i | 0 <= i < |ls| :: LinkedAt(ls, i)
  }

  lemma LinkedStep(ls: seq<Link>, l: Link)
    requires Linked(ls)
    ensures Linked(ls + [l]) <==> LinksTo(l, Head(ls), |ls| + 1)
  {
    var all := ls + [l];
    assert all[..|ls|] == ls;
    forall i | 0 <= i < |ls| ensures LinkedAt(all, i) {
      assert LinkedAt(ls, i) && all[..i] == ls[..i];
    }
    assert LinkedAt(all, |ls|) <==> LinksTo(l, Head(ls), |ls| + 1);
  }

  /** Cutting records off the end leaves an intact chain. */
  lemma LinkedPrefix(ls: seq<Link>, n: nat)
    requires Linked(ls) && n <= |ls|
    ensures Linked(ls[..n])
  {
    forall i | 0 <= i < n ensures LinkedAt(ls[..n], i) {
      assert LinkedAt(ls, i) && ls[..n][..i] == ls[..i];
    }
  }

  // ---------- What a hash says about the past ----------

  /**
   What is assumed of the digest on two given histories: hashes are digests of the bytes
   and never empty, no two of these byte strings collide, and the link to the past is
   part of the bytes.
   */
  predicate Sound(sha: string -> string, x: Link, y: Link) {
    x.Link? && y.Link? ==>
      && x.hash == sha(x.bytes) && x.hash != GENESIS
      && y.hash == sha(y.bytes) && y.hash != GENESIS
      && (sha(x.bytes) == sha(y.bytes) ==> x.bytes == y.bytes)
      && (x.bytes == y.bytes ==> x.prev == y.prev)
  }

  predicate AllSound(sha: string -> string, a: seq<Link>, b: seq<Link>) {
    forall i, j | 0 <= i < |a| && 0 <= j < |b| :: Sound(sha, a[i], b[j])
  }

  predicate HashesSound(sha: string -> string, a: seq<Link>) {
    forall i | 0 <= i < |a| :: Sound(sha, a[i], a[i])
  }

  predicate SameBytes(a: seq<Link>, b: seq<Link>) {
    |a| == |b| && forall i | 0 <= i < |a| :: a[i].Link? && b[i].Link? && a[i].bytes == b[i].bytes
  }

  lemma LastLink(sha: string -> string, a: seq<Link>)
    requires Linked(a) && HashesSound(sha, a) && a != []
    ensures var x := a[|a| - 1];
            x.Link? && x.prev == Head(a[..|a| - 1]) && Head(a) == x.hash == sha(x.bytes) && x.hash != GENESIS
    ensures Linked(a[..|a| - 1]) && HashesSound(sha, a[..|a| - 1])
  {
    var n := |a| - 1;
    assert LinkedAt(a, n);
    assert Sound(sha, a[n], a[n]);
    LinkedPrefix(a, n);
    assert forall i | 0 <= i < n :: Sound(sha, a[i], a[i]);
  }

  lemma SoundPrefix(sha: string -> string, a: seq<Link>, m: nat, b: seq<Link>, n: nat)
    requires AllSound(sha, a, b) && m <= |a| && n <= |b|
    ensures AllSound(sha, a[..m], b[..n])
  {
  }

  lemma SameBytesStep(a: seq<Link>, b: seq<Link>)
    requires a != [] && b != [] && SameBytes(a[..|a| - 1], b[..|b| - 1])
    requires a[|a| - 1].Link? && b[|b| - 1].Link? && a[|a| - 1].bytes == b[|b| - 1].bytes
    ensures SameBytes(a, b)
  {
    var p, q := a[..|a| - 1], b[..|b| - 1];
    assert forall i | 0 <= i < |p| :: a[i] == p[i] && b[i] == q[i];
  }

  /** Equal heads: the same number of records with the same bytes at every position. */
  lemma {:induction false} HeadFixesHistory(sha: string -> string, a: seq<Link>, b: seq<Link>)
    requires Linked(a) && Linked(b) && HashesSound(sha, a) && HashesSound(sha, b) && AllSound(sha, a, b)
    requires Head(a) == Head(b)
    ensures SameBytes(a, b)
  {
    if a != [] { LastLink(sha, a); }
    if b != [] { LastLink(sha, b); }
    if a != [] && b != [] {
      var m, n := |a| - 1, |b| - 1;
      assert Sound(sha, a[m], b[n]);
      SoundPrefix(sha, a, m, b, n);
      HeadFixesHistory(sha, a[..m], b[..n]);
      SameBytesStep(a, b);
    }
  }

  predicate Occurs(x: Link, b: seq<Link>) {
    x.Link? && exists k | 0 <= k < |b| :: b[k].Link? && b[k].bytes == x.bytes
  }

  lemma SameHead(sha: string -> string, a: seq<Link>, b: seq<Link>)
    requires Linked(a) && Linked(b) && HashesSound(sha, a) && HashesSound(sha, b) && SameBytes(a, b)
    ensures Head(a) == Head(b)
  {
    if a != [] {
      LastLink(sha, a);
      LastLink(sha, b);
    }
  }

  lemma SoundPart(sha: string -> string, b: seq<Link>, k: nat)
    requires Linked(b) && HashesSound(sha, b) && k <= |b|
    ensures Linked(b[..k]) && HashesSound(sha, b[..k])
  {
    LinkedPrefix(b, k);
    forall i | 0 <= i < k ensures Sound(sha, b[..k][i], b[..k][i]) {
      assert Sound(sha, b[i], b[i]);
    }
  }

  /** In one chain, two positions that link to the same past are the same position. */
  lemma PastIsUnique(sha: string -> string, b: seq<Link>, j: nat, k: nat)
    requires Linked(b) && HashesSound(sha, b) && AllSound(sha, b, b) && j <= |b| && k <= |b|
    requires Head(b[..j]) == Head(b[..k])
    ensures j == k
  {
    SoundPart(sha, b, j);
    SoundPart(sha, b, k);
    SoundPrefix(sha, b, j, b, k);
    HeadFixesHistory(sha, b[..j], b[..k]);
  }

  /** If all but the last record is a prefix of b, the last record is the next one of b. */
  lemma NextIsNext(sha: string -> string, a: seq<Link>, n: nat, b: seq<Link>, k: nat)
    requires Linked(a) && Linked(b) && HashesSound(sha, a) && HashesSound(sha, b) && AllSound(sha, b, b)
    requires |a| == n + 1 && n <= |b| && SameBytes(a[..n], b[..n])
    requires k < |b| && Sound(sha, a[n], b[k]) && b[k].Link? && a[n].Link? && b[k].bytes == a[n].bytes
    ensures k == n
  {
    LastLink(sha, a);
    SoundPart(sha, b, n);
    SameHead(sha, a[..n], b[..n]);
    assert LinkedAt(b, k);
    PastIsUnique(sha, b, k, n);
  }

  predicate Comes(a: seq<Link>, b: seq<Link>) {
    forall i | 0 <= i < |a| :: Occurs(a[i], b)
  }

  lemma ComesPart(sha: string -> string, a: seq<Link>, b: seq<Link>, n: nat)
    requires Comes(a, b) && AllSound(sha, a, b) && n <= |a|
    ensures Comes(a[..n], b) && AllSound(sha, a[..n], b)
  {
  }

  /**
   When every record of a comes from the chain b, a is a prefix of b: nothing can be
   edited, dropped, inserted or reordered, only the tail cut.
   */
  lemma {:induction false} OnlyPrefixes(sha: string -> string, a: seq<Link>, b: seq<Link>)
    requires Linked(a) && Linked(b) && HashesSound(sha, a) && HashesSound(sha, b)
    requires AllSound(sha, a, b) && AllSound(sha, b, b) && Comes(a, b)
    ensures |a| <= |b| && SameBytes(a, b[..|a|])
  {
    if a != [] {
      var n := |a| - 1;
      LastLink(sha, a);
      ComesPart(sha, a, b, n);
      OnlyPrefixes(sha, a[..n], b);
      assert Occurs(a[n], b);
      var k :| 0 <= k < |b| && b[k].Link? && b[k].bytes == a[n].bytes;
      assert Sound(sha, a[n], b[k]);
      NextIsNext(sha, a, n, b, k);
      var c := b[..n + 1];
      assert c[..n] == b[..n] && c[n] == b[n];
      SameBytesStep(a, c);
    }
  }
}
