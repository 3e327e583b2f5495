/** Local keys of the adapter's records, and the content-addressed handles made from them. */
module Keys {
  import opened Wrappers

  // ---- Decimal numbers ---------------------------------------------------------------------------------------

  function Digit(d: nat): char
    requires d < 10
  {
    '0' + d as char
  }

  function Decimal(n: nat): (r: string)
    ensures |r| > 0 && forall i :: 0 <= i < |r| ==> '0' <= r[i] <= '9'
  {
    if n < 10 then [Digit(n)] else Decimal(n / 10) + [Digit(n % 10)]
  }

  lemma {:induction false} DecimalInjective(a: nat, b: nat)
    requires Decimal(a) == Decimal(b)
    ensures a == b
  {
    var x, y := Decimal(a), Decimal(b);
    assert x[|x| - 1] == Digit(a % 10) && y[|y| - 1] == Digit(b % 10);
    if a >= 10 && b >= 10 {
      assert x[..|x| - 1] == Decimal(a / 10) && y[..|y| - 1] == Decimal(b / 10);
      DecimalInjective(a / 10, b / 10);
    }
  }

  // ---- Local keys --------------------------------------------------------------------------------------------

  /** The key of a function: its ordinal in the module. */
  function FunctionKey(ordinal: nat): string {
    "f" + Decimal(ordinal)
  }

  /** What a local key can name. */
  datatype Local =
    | FunctionOf(ordinal: nat)
    | GlobalOf(ordinal: nat)
    | ArgumentOf(owner: nat, ordinal: nat)
    | BlockOf(owner: nat, ordinal: nat)
    | InstructionOf(owner: nat, ordinal: nat)
    | ConstantOf(owner: nat, ordinal: nat)

  function KindOf(k: Local): string {
    match k
    case FunctionOf(_) => "function"
    case GlobalOf(_) => "global"
    case ArgumentOf(_, _) => "arg"
    case BlockOf(_, _) => "block"
    case InstructionOf(_, _) => "inst"
    case ConstantOf(_, _) => "constant"
  }

  function Body(k: Local): string {
    match k
    case FunctionOf(n) => FunctionKey(n)
    case GlobalOf(n) => "g" + Decimal(n)
    case _ => FunctionKey(k.owner) + ":" + Decimal(k.ordinal)
  }

  function Render(k: Local): string {
    KindOf(k) + ":" + Body(k)
  }

  /** The position of the first colon, or the length when there is none. */
  function Colon(s: string): (i: nat)
    ensures i <= |s|
    ensures i < |s| ==> s[i] == ':'
    ensures forall j :: 0 <= j < i ==> s[j] != ':'
  {
    if s == [] || s[0] == ':' then 0 else 1 + Colon(s[1..])
  }

  function Head(s: string): string {
    s[..Colon(s)]
  }

  /** What follows the first colon. */
  function Rest(s: string): string {
    if Colon(s) < |s| then s[Colon(s) + 1..] else ""
  }

  /** The function key inside a local key: the part between its first two colons, if there are two. */
  function Scope(local: string): Option<string> {
    if Colon(Rest(local)) < |Rest(local)| then Some(Head(Rest(local))) else None
  }

  lemma ColonAt(s: string, i: nat)
    requires i < |s| && s[i] == ':'
    requires forall j :: 0 <= j < i ==> s[j] != ':'
    ensures Colon(s) == i
  {
  }

  lemma Joined(head: string, rest: string)
    requires ':' !in head
    ensures Colon(head + ":" + rest) == |head|
    ensures Head(head + ":" + rest) == head && Rest(head + ":" + rest) == rest
  {
    ColonAt(head + ":" + rest, |head|);
  }

  lemma RenderParts(k: Local)
    ensures Head(Render(k)) == KindOf(k) && Rest(Render(k)) == Body(k)
  {
    Joined(KindOf(k), Body(k));
  }

  lemma NoColon(n: nat)
    ensures ':' !in Decimal(n) && ':' !in FunctionKey(n)
  {
  }

  /** A key that belongs to a function says so: its scope is that function's key. Other keys have no scope. */
  lemma ScopeOfRender(k: Local)
    ensures Scope(Render(k)) == if k.FunctionOf? || k.GlobalOf? then None else Some(FunctionKey(k.owner))
  {
    RenderParts(k);
    NoColon(k.ordinal);
    if !k.FunctionOf? && !k.GlobalOf? {
      NoColon(k.owner);
      Joined(FunctionKey(k.owner), Decimal(k.ordinal));
    } else {
      var body := Body(k);
      assert ':' !in body;
      assert Colon(body) == |body|;
    }
  }

  lemma FunctionKeyInjective(a: nat, b: nat)
    requires FunctionKey(a) == FunctionKey(b)
    ensures a == b
  {
    assert FunctionKey(a)[1..] == Decimal(a);
    assert FunctionKey(b)[1..] == Decimal(b);
    DecimalInjective(a, b);
  }

  /** Different things have different local keys. */
  lemma RenderInjective(a: Local, b: Local)
    requires Render(a) == Render(b)
    ensures a == b
  {
    RenderParts(a);
    RenderParts(b);
    assert KindOf(a) == KindOf(b);
    assert KindOf(a)[0] == KindOf(b)[0];
    if a.FunctionOf? {
      FunctionKeyInjective(a.ordinal, b.ordinal);
    } else if a.GlobalOf? {
      assert Body(a)[1..] == Decimal(a.ordinal);
      assert Body(b)[1..] == Decimal(b.ordinal);
      DecimalInjective(a.ordinal, b.ordinal);
    } else {
      NoColon(a.owner);
      NoColon(b.owner);
      Joined(FunctionKey(a.owner), Decimal(a.ordinal));
      Joined(FunctionKey(b.owner), Decimal(b.ordinal));
      FunctionKeyInjective(a.owner, b.owner);
      DecimalInjective(a.ordinal, b.ordinal);
    }
  }

  // ---- Handles -----------------------------------------------------------------------------------------------

  const SHORT_LENGTH: nat := 16

  /** The first sixteen digits of an artifact's digest. */
  predicate IsShort(short: string) {
    |short| == SHORT_LENGTH
  }

  /** The handle of a local key. The kind table of the program maps every kind to itself. */
  function EntityId(short: string, local: string): string {
    "irez:" + short + ":llvm:" + Head(local) + ":" + Rest(local)
  }

  /** Only a key without a colon changes on the way into a handle: it gains one. */
  function Canonical(local: string): string {
    if ':' in local then local else local + ":"
  }

  lemma EntityIdCanonical(short: string, local: string)
    ensures EntityId(short, local) == "irez:" + short + (":llvm:" + Canonical(local))
  {
    var i := Colon(local);
    if i < |local| {
      assert local == local[..i] + ":" + local[i + 1..];
      assert ':' in local;
    } else {
      assert ':' !in local;
      assert local[..i] == local;
    }
    var a, b, c := "irez:" + short, Head(local), Rest(local);
    assert Canonical(local) == b + ":" + c;
    assert a + ":llvm:" + b + ":" + c == a + (":llvm:" + (b + ":" + c));
  }

  /**
   * Two handles are equal exactly when the digests' prefixes are equal and the keys are equal up to a missing
   * colon. So handles identify keys as soon as every key has a colon, which holds for all rendered keys.
   */
  lemma EntityIdInjective(short: string, local: string, short': string, local': string)
    requires IsShort(short) && IsShort(short')
    ensures EntityId(short, local) == EntityId(short', local') <==>
            short == short' && Canonical(local) == Canonical(local')
  {
    EntityIdCanonical(short, local);
    EntityIdCanonical(short', local');
    var x, y := EntityId(short, local), EntityId(short', local');
    if x == y {
      assert x[5..5 + SHORT_LENGTH] == short && y[5..5 + SHORT_LENGTH] == short';
      assert x[5 + SHORT_LENGTH + 6..] == Canonical(local);
      assert y[5 + SHORT_LENGTH + 6..] == Canonical(local');
    }
  }

  /** Without a colon in the key, two keys can share one handle. */
  lemma EntityIdCollides(short: string)
    ensures EntityId(short, "foo") == EntityId(short, "foo:") && "foo" != "foo:"
  {
    EntityIdCanonical(short, "foo");
    EntityIdCanonical(short, "foo:");
    assert ':' !in "foo";
    assert "foo:"[3] == ':';
  }

  lemma Inner(kind: string, owner: nat, n: nat)
    ensures kind + ":" + (FunctionKey(owner) + ":" + Decimal(n)) == kind + (":f" + (Decimal(owner) + ":" + Decimal(n)))
  {
    hide Decimal;
  }

  /** The texts of keys. */
  lemma RenderText(l: Local)
    ensures Render(l) ==
            match l
            case FunctionOf(n) => "function" + (":f" + Decimal(n))
            case GlobalOf(n) => "global" + (":g" + Decimal(n))
            case ArgumentOf(k, n) => "arg" + (":f" + (Decimal(k) + ":" + Decimal(n)))
            case BlockOf(k, n) => "block" + (":f" + (Decimal(k) + ":" + Decimal(n)))
            case InstructionOf(k, n) => "inst" + (":f" + (Decimal(k) + ":" + Decimal(n)))
            case ConstantOf(k, n) => "constant" + (":f" + (Decimal(k) + ":" + Decimal(n)))
  {
    hide Decimal;
    match l {
      case FunctionOf(n) => assert "function" + ":" + ("f" + Decimal(n)) == "function" + (":f" + Decimal(n));
      case GlobalOf(n) => assert "global" + ":" + ("g" + Decimal(n)) == "global" + (":g" + Decimal(n));
      case _ => Inner(KindOf(l), l.owner, l.ordinal);
    }
  }

  /** And of handles. */
  lemma HandleText(short: string, l: Local)
    ensures EntityId(short, Render(l)) == "irez:" + short + (":llvm:" + Render(l))
  {
    hide Decimal, Render, EntityId;
    RenderHasColon(l);
    EntityIdCanonical(short, Render(l));
  }

  lemma HandleInjective(short: string, a: Local, short': string, b: Local)
    requires IsShort(short) && IsShort(short')
    ensures EntityId(short, Render(a)) == EntityId(short', Render(b)) <==> short == short' && a == b
  {
    EntityIdInjective(short, Render(a), short', Render(b));
    RenderHasColon(a);
    RenderHasColon(b);
    if Render(a) == Render(b) {
      RenderInjective(a, b);
    }
  }

  lemma RenderHasColon(k: Local)
    ensures ':' in Render(k) && Render(k) != ""
  {
    RenderParts(k);
    assert Render(k)[|KindOf(k)|] == ':';
  }

  /** The handle of the function with the given key. */
  function FunctionHandle(short: string, key: string): string {
    EntityId(short, "function:" + key)
  }

  /** The key of a function belongs to no function. */
  lemma FunctionScope(key: string)
    requires ':' !in key
    ensures Scope("function:" + key) == None && ':' in "function:" + key
  {
    var name := "function:" + key;
    assert name[8] == ':';
    Joined("function", key);
    assert Rest(name) == key;
    assert Colon(key) == |key|;
  }

  lemma FunctionHandleInjective(short: string, key: string, short': string, key': string)
    requires IsShort(short) && IsShort(short')
    ensures FunctionHandle(short, key) == FunctionHandle(short', key') <==> short == short' && key == key'
  {
    var a, b := "function:" + key, "function:" + key';
    assert a[8] == ':' && b[8] == ':';
    EntityIdInjective(short, a, short', b);
    assert a[9..] == key && b[9..] == key';
  }
}
