/** The stand-in for the 3ds Max 4 SDK that the exporter is built against:
    the bit array over 32-bit words, the mesh's vertex, face and normal
    vectors, scene nodes with their object and children, and the derived
    object with its parallel modifier and context stacks. Pointers are
    class references (`T?` where the code allows null); `std::vector`s
    are sequences the methods reassign. Floating-point members are
    represented by `real` and no arithmetic on them is modelled. */
module MaxSdk {
  import opened Basics

  // ---- std::vector helpers ----

  /** `v.resize(n, fill)`: the first `n` elements are kept and any new
      ones take `fill`. */
  function Resized<T>(s: seq<T>, n: nat, fill: T): (r: seq<T>)
    ensures |r| == n
    ensures forall k :: 0 <= k < n ==> r[k] == if k < |s| then s[k] else fill
  {
    if n <= |s| then s[..n] else s + seq(n - |s|, _ => fill)
  }

  /** `v.erase(v.begin() + i)` when `0 <= i < v.size()`, and nothing
      otherwise: the element at `i` goes and the rest keep their order. */
  function DeleteAt<T>(s: seq<T>, i: int): (r: seq<T>)
    ensures 0 <= i < |s| ==> |r| == |s| - 1 && forall k :: 0 <= k < |r| ==> r[k] == s[if k < i then k else k + 1]
    ensures !(0 <= i < |s|) ==> r == s
  {
    if 0 <= i < |s| then s[..i] + s[i + 1..] else s
  }

  /** Erasing what was just pushed gives back the vector. */
  lemma DeleteLastPushed<T>(s: seq<T>, x: T)
    ensures DeleteAt(s + [x], |s|) == s
  {
    assert (s + [x])[..|s|] == s;
  }

  /** Erasing removes one occurrence of the element and nothing else. */
  lemma DeleteAtMultiset<T>(s: seq<T>, i: int)
    requires 0 <= i < |s|
    ensures multiset(DeleteAt(s, i)) + multiset{s[i]} == multiset(s)
  {
    assert s == s[..i] + [s[i]] + s[i + 1..];
  }

  // ---- BitArray ----

  /** `(size + 31) / 32` with C++'s division, which truncates towards
      zero: sizes from -62 to 0 need no word. */
  function WordCount(size: int): (n: nat)
    ensures size > 0 ==> 32 * (n - 1) < size <= 32 * n
    ensures size <= 0 ==> n == 0
  {
    if size + 31 <= 0 then 0 else (size + 31) / 32
  }

  /** `1 << b` as a 32-bit word (for `b` 31 the `int` shift gives the
      sign bit, which becomes bit 31 of the `DWORD`). */
  function Mask(b: bv5): bv32 {
    (1 as bv32) << b
  }

  /** `(w & (1 << b)) != 0`. */
  function WordBit(w: bv32, b: bv5): bool {
    w & Mask(b) != 0
  }

  /** `w | (1 << b)`. */
  function WordSet(w: bv32, b: bv5): bv32 {
    w | Mask(b)
  }

  /** `w & ~(1 << b)`. */
  function WordClear(w: bv32, b: bv5): bv32 {
    w & !Mask(b)
  }

  lemma MaskNonzero(b: bv5)
    ensures Mask(b) != 0
  {
  }

  lemma MasksDisjoint(a: bv5, b: bv5)
    requires a != b
    ensures Mask(a) & Mask(b) == 0
  {
  }

  /** Setting a bit of a word sets that bit and no other. */
  lemma WordSetBit(w: bv32, a: bv5, b: bv5)
    ensures WordBit(WordSet(w, a), b) == (a == b || WordBit(w, b))
  {
    if a == b {
      MaskNonzero(b);
      assert (w | Mask(a)) & Mask(b) == Mask(b);
    } else {
      MasksDisjoint(a, b);
      assert (w | Mask(a)) & Mask(b) == (w & Mask(b)) | (Mask(a) & Mask(b));
    }
  }

  /** Clearing a bit of a word clears that bit and no other. */
  lemma WordClearBit(w: bv32, a: bv5, b: bv5)
    ensures WordBit(WordClear(w, a), b) == (a != b && WordBit(w, b))
  {
    if a == b {
      assert (w & !Mask(a)) & Mask(a) == 0;
    } else {
      MasksDisjoint(a, b);
      assert (w & !Mask(a)) & Mask(b) == w & Mask(b);
    }
  }

  /** The place of bit `i` within its word, `i % 32`. */
  function BitOf(i: nat): bv5 {
    (i % 32) as bv5
  }

  lemma BitOfValue(i: nat)
    ensures BitOf(i) as int == i % 32
  {
  }

  /** Two indices in the same word have different places in it. */
  lemma SameWordOtherBit(i: nat, j: nat)
    requires i / 32 == j / 32 && i != j
    ensures BitOf(i) != BitOf(j)
  {
    BitOfValue(i);
    BitOfValue(j);
    assert i == 32 * (i / 32) + i % 32;
    assert j == 32 * (j / 32) + j % 32;
  }

  /** The words fit the bit count, as the constructor and `SetSize`
      leave them. */
  predicate Sized(bits: seq<bv32>, numBits: int) {
    |bits| == WordCount(numBits)
  }

  lemma WordInRange(bits: seq<bv32>, numBits: int, i: int)
    requires Sized(bits, numBits) && 0 <= i < numBits
    ensures i / 32 < |bits|
  {
  }

  /** `operator[]`: bit `i` when it is in range, false otherwise. */
  function TestBit(bits: seq<bv32>, numBits: int, i: int): (r: bool)
    requires Sized(bits, numBits)
    ensures r ==> 0 <= i < numBits
  {
    if 0 <= i < numBits then
      WordInRange(bits, numBits, i);
      WordBit(bits[i / 32], BitOf(i))
    else false
  }

  /** `Set(i)` on the words: an out-of-range index changes nothing. */
  function SetBit(bits: seq<bv32>, numBits: int, i: int): (r: seq<bv32>)
    requires Sized(bits, numBits)
    ensures Sized(r, numBits)
  {
    if 0 <= i < numBits then
      WordInRange(bits, numBits, i);
      bits[i / 32 := WordSet(bits[i / 32], BitOf(i))]
    else bits
  }

  /** `Clear(i)` on the words: an out-of-range index changes nothing. */
  function ClearBit(bits: seq<bv32>, numBits: int, i: int): (r: seq<bv32>)
    requires Sized(bits, numBits)
    ensures Sized(r, numBits)
  {
    if 0 <= i < numBits then
      WordInRange(bits, numBits, i);
      bits[i / 32 := WordClear(bits[i / 32], BitOf(i))]
    else bits
  }

  /** After `Set(i)`, bit `i` is set when it is in range and every other
      bit reads as before. */
  lemma SetBitMeaning(bits: seq<bv32>, numBits: int, i: int, j: int)
    requires Sized(bits, numBits)
    ensures TestBit(SetBit(bits, numBits, i), numBits, j) == ((0 <= i < numBits && j == i) || TestBit(bits, numBits, j))
  {
    if 0 <= i < numBits && 0 <= j < numBits {
      WordInRange(bits, numBits, i);
      WordInRange(bits, numBits, j);
      var r := SetBit(bits, numBits, i);
      if i == j {
        WordSetBit(bits[i / 32], BitOf(i), BitOf(i));
      } else if i / 32 == j / 32 {
        SameWordOtherBit(i, j);
        WordSetBit(bits[i / 32], BitOf(i), BitOf(j));
      } else {
        assert r[j / 32] == bits[j / 32];
      }
    }
  }

  /** After `Clear(i)`, bit `i` reads false and every other bit reads as
      before. */
  lemma ClearBitMeaning(bits: seq<bv32>, numBits: int, i: int, j: int)
    requires Sized(bits, numBits)
    ensures TestBit(ClearBit(bits, numBits, i), numBits, j) == ((j != i || !(0 <= i < numBits)) && TestBit(bits, numBits, j))
  {
    if 0 <= i < numBits && 0 <= j < numBits {
      WordInRange(bits, numBits, i);
      WordInRange(bits, numBits, j);
      var r := ClearBit(bits, numBits, i);
      if i == j {
        WordClearBit(bits[i / 32], BitOf(i), BitOf(i));
      } else if i / 32 == j / 32 {
        SameWordOtherBit(i, j);
        WordClearBit(bits[i / 32], BitOf(i), BitOf(j));
      } else {
        assert r[j / 32] == bits[j / 32];
      }
    }
  }

  /** `SetSize(m)` on the words: they are resized, new words are zero. */
  function Resize(bits: seq<bv32>, m: int): (r: seq<bv32>)
    ensures Sized(r, m)
  {
    Resized(bits, WordCount(m), 0)
  }

  /** After `SetSize(m)` a bit in range reads what the old word held at
      its place, whatever the old bit count was, and a bit in a new word
      reads false. */
  lemma ResizeMeaning(bits: seq<bv32>, m: int, j: int)
    ensures TestBit(Resize(bits, m), m, j) == (0 <= j < m && j / 32 < |bits| && WordBit(bits[j / 32], BitOf(j)))
  {
  }

  /** Shrinking within the last word does not clear the bits it cuts
      off: set bit 5 of a 32-bit array, shrink it to 3 bits and grow it
      back, and bit 5 is set again. */
  lemma ShrunkBitsComeBack()
    ensures var b0 := Resize([], 32);
      var b1 := SetBit(b0, 32, 5);
      var b2 := Resize(b1, 3);
      !TestBit(b2, 3, 5) && TestBit(Resize(b2, 32), 32, 5)
  {
    var b2 := Resize(SetBit(Resize([], 32), 32, 5), 3);
    SetBitMeaning(Resize([], 32), 32, 5, 5);
    ResizeMeaning(b2, 32, 5);
  }

  /** `BitArray`: `numBits` bits in `bits`, 32 to a word, bit `i` at bit
      `i % 32` of word `i / 32`. */
  class BitArray {
    var bits: seq<bv32>
    var numBits: int

    ghost predicate Valid()
      reads this
    {
      Sized(bits, numBits)
    }

    /** `BitArray()`: no bits. */
    constructor()
      ensures Valid() && numBits == 0 && bits == []
    {
      bits := [];
      numBits := 0;
    }

    /** `BitArray(size)`: `size` bits, all clear. A size below -62 would
        give `resize` a negative count, and one within 31 of `INT_MAX`
        overflows `size + 31`. */
    constructor WithSize(size: i32)
      requires -62 <= size && size + 31 < 0x8000_0000
      ensures Valid() && numBits == size && bits == Resize([], size)
      ensures forall j :: !Get(j)
    {
      numBits := size;
      bits := Resized([], WordCount(size), 0);
      new;
      forall j
        ensures !Get(j)
      {
        ResizeMeaning([], size, j);
      }
    }

    /** `SetSize(size)`: the words are resized to the new count, keeping
        the ones that stay. */
    method SetSize(size: i32)
      requires -62 <= size && size + 31 < 0x8000_0000
      modifies this
      ensures Valid() && numBits == size && bits == Resize(old(bits), size)
    {
      numBits := size;
      bits := Resized(bits, WordCount(size), 0);
    }

    /** `operator[]`. */
    function Get(i: int): bool
      requires Valid()
      reads this
    {
      TestBit(bits, numBits, i)
    }

    method Set(i: int)
      requires Valid()
      modifies this
      ensures Valid() && numBits == old(numBits) && bits == SetBit(old(bits), numBits, i)
      ensures forall j :: Get(j) == ((0 <= i < numBits && j == i) || old(Get(j)))
    {
      if i >= 0 && i < numBits {
        WordInRange(bits, numBits, i);
        bits := bits[i / 32 := WordSet(bits[i / 32], BitOf(i))];
      }
      forall j
        ensures Get(j) == ((0 <= i < numBits && j == i) || old(Get(j)))
      {
        SetBitMeaning(old(bits), numBits, i, j);
      }
    }

    method Clear(i: int)
      requires Valid()
      modifies this
      ensures Valid() && numBits == old(numBits) && bits == ClearBit(old(bits), numBits, i)
      ensures forall j :: Get(j) == ((j != i || !(0 <= i < numBits)) && old(Get(j)))
    {
      if i >= 0 && i < numBits {
        WordInRange(bits, numBits, i);
        bits := bits[i / 32 := WordClear(bits[i / 32], BitOf(i))];
      }
      forall j
        ensures Get(j) == ((j != i || !(0 <= i < numBits)) && old(Get(j)))
      {
        ClearBitMeaning(old(bits), numBits, i, j);
      }
    }
  }

  // ---- Mesh ----

  /** `Point2`/`Point3`, default-constructed to the origin. */
  datatype Point2 = Point2(x: real, y: real)
  datatype Point3 = Point3(x: real, y: real, z: real)

  const ORIGIN2: Point2 := Point2(0.0, 0.0)
  const ORIGIN3: Point3 := Point3(0.0, 0.0, 0.0)

  /** `Mesh::Face`; `resize` value-initialises new faces to zeros. */
  datatype Face = Face(v0: int, v1: int, v2: int, matID: int, smGroup: int)

  const ZERO_FACE: Face := Face(0, 0, 0, 0, 0)

  class Mesh {
    var verts: seq<Point3>
    var normals: seq<Point3>
    var tverts: seq<Point2>
    var faces: seq<Face>

    constructor()
      ensures verts == [] && normals == [] && tverts == [] && faces == []
    {
      verts, normals, tverts, faces := [], [], [], [];
    }

    function GetNumVerts(): int reads this { |verts| }
    function GetNumFaces(): int reads this { |faces| }
    function GetNumTVerts(): int reads this { |tverts| }

    /** `setNumVerts(n)`; a negative `n` would make `resize` throw. */
    method SetNumVerts(n: i32)
      requires n >= 0
      modifies this
      ensures verts == Resized(old(verts), n, ORIGIN3) && GetNumVerts() == n
      ensures normals == old(normals) && tverts == old(tverts) && faces == old(faces)
    {
      verts := Resized(verts, n, ORIGIN3);
    }

    method SetNumFaces(n: i32)
      requires n >= 0
      modifies this
      ensures faces == Resized(old(faces), n, ZERO_FACE) && GetNumFaces() == n
      ensures verts == old(verts) && normals == old(normals) && tverts == old(tverts)
    {
      faces := Resized(faces, n, ZERO_FACE);
    }

    method SetNumTVerts(n: i32)
      requires n >= 0
      modifies this
      ensures tverts == Resized(old(tverts), n, ORIGIN2) && GetNumTVerts() == n
      ensures verts == old(verts) && normals == old(normals) && faces == old(faces)
    {
      tverts := Resized(tverts, n, ORIGIN2);
    }

    /** `buildNormals`: one normal per vertex, computing none of them. */
    method BuildNormals()
      modifies this
      ensures normals == Resized(old(normals), |verts|, ORIGIN3) && |normals| == |verts|
      ensures verts == old(verts) && tverts == old(tverts) && faces == old(faces)
    {
      normals := Resized(normals, |verts|, ORIGIN3);
    }
  }

  /** `TriObject`: a mesh. */
  class TriObject {
    const mesh: Mesh

    constructor()
      ensures fresh(mesh)
    {
      mesh := new Mesh();
    }
  }

  // ---- objects, modifiers, nodes ----

  /** The plain `Object` base class; its virtuals are the defaults. */
  class Object {
    constructor() {}
  }

  class Modifier {
    constructor() {}
  }

  class ModContext {
    constructor() {}
  }

  class Texmap {
    constructor() {}
  }

  /** A non-null `Object*`: a plain object, or one that is an
      `IDerivedObject`, which `dynamic_cast` tells apart. */
  datatype ObjectRef = PlainRef(plain: Object) | DerivedRef(derived: IDerivedObject)

  /** `Object::ConvertToType`: no class here overrides it, so it gives
      null for every object. */
  function ConvertToType(o: ObjectRef, t: int, classId: int): (r: TriObject?)
    ensures r == null
  {
    null
  }

  /** `IDerivedObject`: a base object and a modifier stack held in two
      parallel vectors. */
  class IDerivedObject {
    var baseObject: Option<ObjectRef>
    var modifiers: seq<Modifier?>
    var contexts: seq<ModContext?>

    /** The two vectors always have the same length. */
    ghost predicate Valid()
      reads this
    {
      |modifiers| == |contexts|
    }

    constructor(obj: Option<ObjectRef>)
      ensures Valid() && baseObject == obj && modifiers == [] && contexts == []
    {
      baseObject := obj;
      modifiers := [];
      contexts := [];
    }

    function NumModifiers(): int
      reads this
    {
      |modifiers|
    }

    /** `GetModifier(i)`: null out of range. */
    function GetModifier(i: int): (m: Modifier?)
      reads this
      ensures 0 <= i < |modifiers| ==> m == modifiers[i]
      ensures !(0 <= i < |modifiers|) ==> m == null
    {
      if 0 <= i < |modifiers| then modifiers[i] else null
    }

    /** `AddModifier(mod, mc)`: pushes onto both vectors. */
    method AddModifier(mod: Modifier?, mc: ModContext?)
      requires Valid()
      modifies this
      ensures Valid() && modifiers == old(modifiers) + [mod] && contexts == old(contexts) + [mc]
      ensures baseObject == old(baseObject)
      ensures NumModifiers() == old(NumModifiers()) + 1 && GetModifier(NumModifiers() - 1) == mod
    {
      modifiers := modifiers + [mod];
      contexts := contexts + [mc];
    }

    /** `DeleteModifier(i)`: erases index `i` from both vectors; out of
        range it does nothing. */
    method DeleteModifier(i: int)
      requires Valid()
      modifies this
      ensures Valid() && modifiers == DeleteAt(old(modifiers), i) && contexts == DeleteAt(old(contexts), i)
      ensures baseObject == old(baseObject)
    {
      if i >= 0 && i < |modifiers| {
        modifiers := modifiers[..i] + modifiers[i + 1..];
        contexts := contexts[..i] + contexts[i + 1..];
      }
    }

    function GetBaseObject(): Option<ObjectRef>
      reads this
    {
      baseObject
    }

    method SetBaseObject(obj: Option<ObjectRef>)
      modifies this
      ensures GetBaseObject() == obj && modifiers == old(modifiers) && contexts == old(contexts)
    {
      baseObject := obj;
    }
  }

  /** `INode`: a named scene node with an object, a parent and a list of
      children (the node transform is a float matrix and not modelled). */
  class INode {
    var name: string
    var obj: Option<ObjectRef>
    var parent: INode?
    var children: seq<INode?>

    constructor()
      ensures name == [] && obj.None? && parent == null && children == []
    {
      name := [];
      obj := None;
      parent := null;
      children := [];
    }

    method SetName(n: string)
      modifies this
      ensures name == n && obj == old(obj) && parent == old(parent) && children == old(children)
    {
      name := n;
    }

    method SetObjectRef(o: Option<ObjectRef>)
      modifies this
      ensures obj == o && name == old(name) && parent == old(parent) && children == old(children)
    {
      obj := o;
    }

    function GetObjectRef(): Option<ObjectRef>
      reads this
    {
      obj
    }

    function GetParentNode(): INode?
      reads this
    {
      parent
    }

    method SetParent(p: INode?)
      modifies this
      ensures parent == p && name == old(name) && obj == old(obj) && children == old(children)
    {
      parent := p;
    }

    function NumChildren(): int
      reads this
    {
      |children|
    }

    /** `GetChildNode(i)` does not check `i`. */
    function GetChildNode(i: int): INode?
      requires 0 <= i < |children|
      reads this
    {
      children[i]
    }

    /** `AddChild(child)`: the child goes last; neither its parent nor
        this node's is touched. */
    method AddChild(child: INode?)
      modifies this
      ensures children == old(children) + [child]
      ensures NumChildren() == old(NumChildren()) + 1 && GetChildNode(NumChildren() - 1) == child
      ensures name == old(name) && obj == old(obj) && parent == old(parent)
      ensures child != null ==> child.parent == old(child.parent)
    {
      children := children + [child];
    }
  }

  /** `CreateDerivedObject(obj)`: a new derived object over `obj` with
      no modifiers. */
  method CreateDerivedObject(obj: Option<ObjectRef>) returns (d: IDerivedObject)
    ensures fresh(d) && d.Valid() && d.baseObject == obj && d.modifiers == [] && d.contexts == []
  {
    d := new IDerivedObject(obj);
  }
}
