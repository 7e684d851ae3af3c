/** The order of cached steps: names first, then argument tables of any nesting. */
module Pathway {
  newtype Byte = x: int | 0 <= x < 256

  // A video description is compared as the bytes it takes up.
  const INFO_BYTES := 32

  type Info = s: seq<Byte> | |s| == INFO_BYTES witness seq(INFO_BYTES, i => 0)

  // What an argument can be. An entry of a table may be missing, and past the end all are.
  datatype Object =
    | Missing
    | Table(entries: seq<Object>)
    | Bytes(data: seq<Byte>)
    | Substrate(info: Info)
    | Other(address: nat)

  datatype StepDesc = StepDesc(enzyme: seq<Byte>, func: seq<Byte>, args: seq<Object>)

  // Comparisons give a negative number, zero or a positive one.

  function CompareInts(l: int, r: int): int {
    if l < r then -1 else if l > r then 1 else 0
  }

  // The first difference from a position on decides, and without one the shorter comes first.
  function CompareText(l: seq<Byte>, r: seq<Byte>, i: nat): int
    requires i <= |l| && i <= |r|
    decreases |l| - i
  {
    if i == |l| || i == |r| then CompareInts(|l|, |r|)
    else if l[i] != r[i] then CompareInts(l[i] as int, r[i] as int)
    else CompareText(l, r, i + 1)
  }

  // Sizes first.
  function CompareBytes(l: seq<Byte>, r: seq<Byte>): int {
    if |l| != |r| then CompareInts(|l|, |r|) else CompareText(l, r, 0)
  }

  function Get(t: seq<Object>, i: nat): (r: Object)
    ensures !r.Missing? ==> i < |t| && r == t[i]
  {
    if i < |t| then t[i] else Missing
  }

  // The entries from a position on, up to where both are missing.
  function CompareEntries(l: seq<Object>, r: seq<Object>, i: nat): int
    decreases l, |l| + |r| - i
  {
    var a, b := Get(l, i), Get(r, i);
    if a.Missing? && b.Missing? then 0
    else if a.Missing? then -1
    else if b.Missing? then 1
    else
      var c := CompareObjects(a, b);
      if c != 0 then c else CompareEntries(l, r, i + 1)
  }

  // Tables come after bytes, bytes after substrates, and substrates after all other objects.
  function CompareObjects(l: Object, r: Object): int
    decreases l, 0
  {
    if l.Table? || r.Table? then
      if !l.Table? then -1 else if !r.Table? then 1 else CompareEntries(l.entries, r.entries, 0)
    else if l.Bytes? || r.Bytes? then
      if !l.Bytes? then -1 else if !r.Bytes? then 1 else CompareBytes(l.data, r.data)
    else if l.Substrate? || r.Substrate? then
      if !l.Substrate? then -1 else if !r.Substrate? then 1 else CompareText(l.info, r.info, 0)
    else if l.Other? && r.Other? then CompareInts(l.address, r.address)
    else CompareInts(if l.Missing? then 0 else 1, if r.Missing? then 0 else 1)
  }

  // Where two texts differ first: at a smaller byte, or where the first of them ends.
  predicate ComesBefore(l: seq<Byte>, r: seq<Byte>, k: nat) {
    && k <= |l| && k < |r| && l[..k] == r[..k]
    && (k == |l| || l[k] < r[k])
  }

  lemma SameBefore(l: seq<Byte>, r: seq<Byte>, i: nat, k: nat)
    ensures ComesBefore(l, r, k) && i < k ==> l[i] == r[i]
  {
    if ComesBefore(l, r, k) && i < k { assert l[..k][i] == r[..k][i]; }
  }

  /** Texts are in the order of a dictionary. */
  lemma {:induction false} TextIsLexicographic(l: seq<Byte>, r: seq<Byte>, i: nat)
    requires i <= |l| && i <= |r| && l[..i] == r[..i]
    ensures CompareText(l, r, i) < 0 <==> exists k | i <= k <= |l| :: ComesBefore(l, r, k)
    decreases |l| - i
  {
    if i < |l| && i < |r| && l[i] == r[i] {
      assert l[..i + 1] == l[..i] + [l[i]] && r[..i + 1] == r[..i] + [r[i]];
      TextIsLexicographic(l, r, i + 1);
      assert !ComesBefore(l, r, i);
    } else if i < |r| && (i == |l| || l[i] < r[i]) {
      assert ComesBefore(l, r, i);
    } else {
      forall k | i <= k <= |l| ensures !ComesBefore(l, r, k) {
        SameBefore(l, r, i, k);
      }
    }
  }

  /** The comparison as the source makes it: a loop over the entries, and a call for nested tables. */
  method CmpTable(l: seq<Object>, r: seq<Object>) returns (cmp: int)
    ensures cmp == CompareEntries(l, r, 0)
    decreases l
  {
    var ref := 0;
    while true
      invariant CompareEntries(l, r, ref) == CompareEntries(l, r, 0) && ref <= |l|
      decreases |l| - ref
    {
      var lval, rval := Get(l, ref), Get(r, ref);
      if lval.Missing? && rval.Missing? {
        return 0;
      } else if lval.Missing? || rval.Missing? {
        return if lval.Missing? then -1 else 1;
      }
      if lval.Table? && rval.Table? {
        cmp := CmpTable(lval.entries, rval.entries);
      } else {
        cmp := CompareObjects(lval, rval);
      }
      if cmp != 0 {
        return;
      }
      ref := ref + 1;
    }
  }

  predicate Less(l: StepDesc, r: StepDesc) {
    Compare(l, r) < 0
  }

  function Compare(l: StepDesc, r: StepDesc): int {
    var enzyme, func := CompareText(l.enzyme, r.enzyme, 0), CompareText(l.func, r.func, 0);
    if enzyme != 0 then enzyme else if func != 0 then func else CompareEntries(l.args, r.args, 0)
  }

  // The order

  predicate Opposite(x: int, y: int) {
    (x < 0 <==> y > 0) && (x == 0 <==> y == 0)
  }

  // Comparisons of a with b, b with c and a with c that fit together.
  predicate Chain(ab: int, bc: int, ac: int) {
    && (ab <= 0 && bc <= 0 ==> ac <= 0)
    && (ab <= 0 && bc <= 0 && (ab < 0 || bc < 0) ==> ac < 0)
  }

  lemma {:induction false} TextOpposite(l: seq<Byte>, r: seq<Byte>, i: nat)
    requires i <= |l| && i <= |r|
    ensures Opposite(CompareText(l, r, i), CompareText(r, l, i))
    decreases |l| - i
  {
    if i < |l| && i < |r| && l[i] == r[i] { TextOpposite(l, r, i + 1); }
  }

  lemma {:induction false} TextChain(a: seq<Byte>, b: seq<Byte>, c: seq<Byte>, i: nat)
    requires i <= |a| && i <= |b| && i <= |c|
    ensures Chain(CompareText(a, b, i), CompareText(b, c, i), CompareText(a, c, i))
    decreases |a| - i
  {
    if i < |a| && i < |b| && i < |c| && a[i] == b[i] && b[i] == c[i] { TextChain(a, b, c, i + 1); }
  }

  lemma BytesOpposite(l: seq<Byte>, r: seq<Byte>)
    ensures Opposite(CompareBytes(l, r), CompareBytes(r, l))
  {
    TextOpposite(l, r, 0);
  }

  lemma BytesChain(a: seq<Byte>, b: seq<Byte>, c: seq<Byte>)
    ensures Chain(CompareBytes(a, b), CompareBytes(b, c), CompareBytes(a, c))
  {
    if |a| == |b| == |c| { TextChain(a, b, c, 0); }
  }

  lemma {:induction false} EntriesOpposite(l: seq<Object>, r: seq<Object>, i: nat)
    ensures Opposite(CompareEntries(l, r, i), CompareEntries(r, l, i))
    decreases l, |l| + |r| - i
  {
    var a, b := Get(l, i), Get(r, i);
    if !a.Missing? && !b.Missing? {
      ObjectsOpposite(a, b);
      EntriesOpposite(l, r, i + 1);
    }
  }

  lemma {:induction false} ObjectsOpposite(l: Object, r: Object)
    ensures Opposite(CompareObjects(l, r), CompareObjects(r, l))
    decreases l, 0
  {
    if l.Table? && r.Table? {
      EntriesOpposite(l.entries, r.entries, 0);
    } else if l.Bytes? && r.Bytes? {
      BytesOpposite(l.data, r.data);
    } else if l.Substrate? && r.Substrate? {
      TextOpposite(l.info, r.info, 0);
    }
  }

  lemma {:induction false} EntriesChain(a: seq<Object>, b: seq<Object>, c: seq<Object>, i: nat)
    ensures Chain(CompareEntries(a, b, i), CompareEntries(b, c, i), CompareEntries(a, c, i))
    decreases a, |a| - i
  {
    var x, y, z := Get(a, i), Get(b, i), Get(c, i);
    if !x.Missing? && !y.Missing? && !z.Missing? {
      ObjectsChain(x, y, z);
      EntriesChain(a, b, c, i + 1);
    }
  }

  lemma {:induction false} ObjectsChain(a: Object, b: Object, c: Object)
    ensures Chain(CompareObjects(a, b), CompareObjects(b, c), CompareObjects(a, c))
    decreases a, 0
  {
    if a.Table? && b.Table? && c.Table? {
      EntriesChain(a.entries, b.entries, c.entries, 0);
    } else if a.Bytes? && b.Bytes? && c.Bytes? {
      BytesChain(a.data, b.data, c.data);
    } else if a.Substrate? && b.Substrate? && c.Substrate? {
      TextChain(a.info, b.info, c.info, 0);
    }
  }

  lemma CompareOpposite(l: StepDesc, r: StepDesc)
    ensures Opposite(Compare(l, r), Compare(r, l))
  {
    TextOpposite(l.enzyme, r.enzyme, 0);
    TextOpposite(l.func, r.func, 0);
    EntriesOpposite(l.args, r.args, 0);
  }

  lemma CompareChain(a: StepDesc, b: StepDesc, c: StepDesc)
    ensures Chain(Compare(a, b), Compare(b, c), Compare(a, c))
  {
    TextChain(a.enzyme, b.enzyme, c.enzyme, 0);
    TextChain(a.func, b.func, c.func, 0);
    EntriesChain(a.args, b.args, c.args, 0);
  }

  // Neither step comes before the other.
  predicate Equivalent(l: StepDesc, r: StepDesc) {
    !Less(l, r) && !Less(r, l)
  }

  /** The order is strict and weak, over tables nested to any depth: no step comes before itself, it is transitive, and
      being equivalent is transitive as well. */
  lemma StrictWeakOrder(a: StepDesc, b: StepDesc, c: StepDesc)
    ensures !Less(a, a)
    ensures Less(a, b) && Less(b, c) ==> Less(a, c)
    ensures Equivalent(a, b) && Equivalent(b, c) ==> Equivalent(a, c)
    ensures Less(a, b) ==> !Less(b, a)
  {
    CompareOpposite(a, a);
    CompareOpposite(a, b);
    CompareOpposite(b, c);
    CompareOpposite(a, c);
    CompareChain(a, b, c);
    CompareChain(c, b, a);
  }

  // What the order looks at

  // A table up to its first missing entry, the tables in it likewise.
  function Seen(t: seq<Object>, i: nat): seq<Object>
    decreases t, |t| - i
  {
    if Get(t, i).Missing? then [] else [SeenIn(Get(t, i))] + Seen(t, i + 1)
  }

  function SeenIn(o: Object): Object
    decreases o, 0
  {
    if o.Table? then Table(Seen(o.entries, 0)) else o
  }

  lemma {:induction false} TextEqual(l: seq<Byte>, r: seq<Byte>, i: nat)
    requires i <= |l| && i <= |r|
    ensures CompareText(l, r, i) == 0 <==> l[i..] == r[i..]
    decreases |l| - i
  {
    if i < |l| && i < |r| {
      TextEqual(l, r, i + 1);
      assert l[i..] == [l[i]] + l[i + 1..] && r[i..] == [r[i]] + r[i + 1..];
    }
  }

  lemma {:induction false} EntriesEqual(l: seq<Object>, r: seq<Object>, i: nat)
    ensures CompareEntries(l, r, i) == 0 <==> Seen(l, i) == Seen(r, i)
    decreases l, |l| + |r| - i
  {
    var a, b := Get(l, i), Get(r, i);
    if !a.Missing? && !b.Missing? {
      ObjectsEqual(a, b);
      EntriesEqual(l, r, i + 1);
      ConsEqual(SeenIn(a), SeenIn(b), Seen(l, i + 1), Seen(r, i + 1));
    }
  }

  lemma ConsEqual(a: Object, b: Object, s: seq<Object>, t: seq<Object>)
    ensures [a] + s == [b] + t <==> a == b && s == t
  {
    assert ([a] + s)[0] == a && ([b] + t)[0] == b;
    assert ([a] + s)[1..] == s && ([b] + t)[1..] == t;
  }

  lemma {:induction false} ObjectsEqual(l: Object, r: Object)
    ensures CompareObjects(l, r) == 0 <==> SeenIn(l) == SeenIn(r)
    decreases l, 0
  {
    if l.Table? && r.Table? {
      EntriesEqual(l.entries, r.entries, 0);
    } else if l.Bytes? && r.Bytes? {
      TextEqual(l.data, r.data, 0);
      assert l.data[0..] == l.data && r.data[0..] == r.data;
    } else if l.Substrate? && r.Substrate? {
      TextEqual(l.info, r.info, 0);
      assert l.info[0..] == l.info && r.info[0..] == r.info;
    }
  }

  /** Two steps are equivalent exactly when their names are equal and their tables are, up to missing entries. A substrate
      in a table counts by its video description alone, so a step found in the pool may have other substrates of the same
      description. */
  lemma EquivalentIffSame(l: StepDesc, r: StepDesc)
    ensures Equivalent(l, r) <==> l.enzyme == r.enzyme && l.func == r.func && Seen(l.args, 0) == Seen(r.args, 0)
  {
    CompareOpposite(l, r);
    TextEqual(l.enzyme, r.enzyme, 0);
    TextEqual(l.func, r.func, 0);
    assert l.enzyme[0..] == l.enzyme && r.enzyme[0..] == r.enzyme;
    assert l.func[0..] == l.func && r.func[0..] == r.func;
    EntriesEqual(l.args, r.args, 0);
  }
}
