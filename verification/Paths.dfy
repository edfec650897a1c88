/**
 Lexical path handling: std::filesystem::path of the POSIX kind, its operator/ and
 lexically_normal() (section [fs.path.generic] of ISO C++20), and normalize_path.
 A path is cut at its separators; a stack of names then carries out the rules.
 */
module Paths {

  /** The pieces between separators, empty ones included. */
  function Split(s: string): (pieces: seq<string>)
    ensures pieces != []
  {
    if s == "" then [""]
    else if s[0] == '/' then [""] + Split(s[1..])
    else Prepend(s[0], Split(s[1..]))
  }

  function Prepend(c: char, pieces: seq<string>): (r: seq<string>)
    requires pieces != []
    ensures r != []
  {
    [[c] + pieces[0]] + pieces[1..]
  }

  predicate IsName(piece: string) {
    piece != "" && piece != "." && '/' !in piece
  }

  /** Rules 2 and 4: repeated separators and dot pieces disappear. */
  function Keep(pieces: seq<string>): seq<string> {
    if pieces == [] then []
    else (if pieces[0] == "" || pieces[0] == "." then [] else [pieces[0]]) + Keep(pieces[1..])
  }

  function Names(s: string): seq<string> {
    Keep(Split(s))
  }

  predicate IsAbsolute(s: string) {
    s != "" && s[0] == '/'
  }

  function Push(absolute: bool, stack: seq<string>, name: string): seq<string> {
    if name != ".." then stack + [name]
    else if stack != [] && stack[|stack| - 1] != ".." then stack[..|stack| - 1]
    else if absolute then stack
    else stack + [name]
  }

  function PushAll(absolute: bool, stack: seq<string>, names: seq<string>): seq<string>
    decreases |names|
  {
    if names == [] then stack else PushAll(absolute, Push(absolute, stack, names[0]), names[1..])
  }

  function Join(names: seq<string>): string {
    if names == [] then ""
    else if |names| == 1 then names[0]
    else names[0] + "/" + Join(names[1..])
  }

  function Render(absolute: bool, stack: seq<string>): string {
    if absolute then "/" + Join(stack)
    else if stack == [] then "."
    else Join(stack)
  }

  /** normalize_path: lexically_normal() without the separator it may leave at the end. */
  function Normalize(s: string): string {
    if s == "" then "" else Render(IsAbsolute(s), PushAll(IsAbsolute(s), [], Names(s)))
  }

  /** operator/ */
  function Append(p: string, q: string): string {
    if IsAbsolute(q) || p == "" then q
    else if p[|p| - 1] == '/' then p + q
    else p + "/" + q
  }

  /** The stacks that the rules can no longer shorten. */
  predicate IsNormal(absolute: bool, stack: seq<string>) {
    && (forall i | 0 <= i < |stack| :: IsName(stack[i]))
    && (forall i | 0 <= i < |stack| :: stack[i] == ".." ==>
          !absolute && (forall j | 0 <= j < i :: stack[j] == ".."))
  }

  // ---- The pieces of concatenated paths ----

  lemma PrependConcat(c: char, x: seq<string>, y: seq<string>)
    requires x != []
    ensures Prepend(c, x + y) == Prepend(c, x) + y
  {
    assert (x + y)[1..] == x[1..] + y;
  }

  lemma Rest(a: string, b: string)
    requires a != ""
    ensures (a + "/" + b)[0] == a[0] && (a + "/" + b)[1..] == a[1..] + "/" + b
  {
  }

  lemma {:induction false} SplitConcat(a: string, b: string)
    ensures Split(a + "/" + b) == Split(a) + Split(b)
  {
    if a == "" {
      assert a + "/" + b == "/" + b;
      assert ("/" + b)[1..] == b;
    } else {
      SplitConcat(a[1..], b);
      var left, right := Split(a[1..]), Split(b);
      Rest(a, b);
      if a[0] == '/' {
        assert [""] + (left + right) == ([""] + left) + right;
      } else {
        PrependConcat(a[0], left, right);
      }
    }
  }

  lemma {:induction false} SplitName(name: string)
    requires '/' !in name
    ensures Split(name) == [name]
  {
    if name != "" {
      SplitName(name[1..]);
      assert [name[0]] + name[1..] == name;
      assert Prepend(name[0], [name[1..]]) == [name];
    }
  }

  lemma {:induction false} SplitSlashFree(s: string)
    ensures forall piece :: piece in Split(s) ==> '/' !in piece
  {
    if s != "" {
      SplitSlashFree(s[1..]);
    }
  }

  function Kept(piece: string): seq<string> {
    if piece == "" || piece == "." then [] else [piece]
  }

  lemma {:induction false} KeepFirst(piece: string, pieces: seq<string>)
    ensures Keep([piece] + pieces) == Kept(piece) + Keep(pieces)
  {
    assert ([piece] + pieces)[1..] == pieces;
  }

  lemma {:induction false} KeepConcat(a: seq<string>, b: seq<string>)
    ensures Keep(a + b) == Keep(a) + Keep(b)
  {
    if a == [] {
      assert a + b == b;
    } else {
      KeepConcat(a[1..], b);
      KeepFirst(a[0], a[1..]);
      KeepFirst(a[0], a[1..] + b);
      assert a + b == [a[0]] + (a[1..] + b) && a == [a[0]] + a[1..];
    }
  }

  lemma {:induction false} KeepMembers(pieces: seq<string>)
    ensures forall n :: n in Keep(pieces) ==> n in pieces && n != "" && n != "."
  {
    if pieces != [] {
      KeepMembers(pieces[1..]);
    }
  }

  lemma NamesAreNames(s: string)
    ensures forall n :: n in Names(s) ==> IsName(n)
  {
    SplitSlashFree(s);
    KeepMembers(Split(s));
  }

  lemma NamesConcat(a: string, b: string)
    ensures Names(a + "/" + b) == Names(a) + Names(b)
  {
    SplitConcat(a, b);
    KeepConcat(Split(a), Split(b));
  }

  lemma NamesOfAppend(p: string, q: string)
    requires !IsAbsolute(q)
    ensures Names(Append(p, q)) == Names(p) + Names(q)
  {
    if p == "" {
      assert Keep([""]) == [];
      assert Names(p) + Names(q) == Names(q);
    } else if p[|p| - 1] == '/' {
      var stem := p[..|p| - 1];
      assert p == stem + "/" + "" && p + q == stem + "/" + q;
      NamesConcat(stem, "");
      NamesConcat(stem, q);
      assert Keep([""]) == [];
    } else {
      NamesConcat(p, q);
    }
  }

  lemma {:induction false} NamesOfJoin(names: seq<string>)
    requires forall i | 0 <= i < |names| :: IsName(names[i])
    ensures Names(Join(names)) == names
  {
    if names == [] {
      assert Keep([""]) == [];
    } else {
      SplitName(names[0]);
      assert Keep([names[0]]) == [names[0]];
      if |names| > 1 {
        NamesConcat(names[0], Join(names[1..]));
        NamesOfJoin(names[1..]);
      }
    }
  }

  lemma {:induction false} JoinHead(names: seq<string>)
    requires names != [] && IsName(names[0])
    ensures Join(names) != "" && Join(names)[0] != '/'
  {
  }

  /** Reading a printed stack back gives the stack. */
  lemma RenderNames(absolute: bool, stack: seq<string>)
    requires IsNormal(absolute, stack)
    ensures Names(Render(absolute, stack)) == stack
    ensures IsAbsolute(Render(absolute, stack)) == absolute
    ensures Render(absolute, stack) != ""
  {
    NamesOfJoin(stack);
    if absolute {
      assert Render(absolute, stack) == "" + "/" + Join(stack);
      NamesConcat("", Join(stack));
      assert Keep([""]) == [];
    } else if stack == [] {
      SplitName(".");
      assert Keep(["."]) == [];
    } else {
      JoinHead(stack);
    }
  }

  // ---- What the stack does ----

  lemma {:induction false} PushAllConcat(absolute: bool, stack: seq<string>, a: seq<string>, b: seq<string>)
    ensures PushAll(absolute, stack, a + b) == PushAll(absolute, PushAll(absolute, stack, a), b)
    decreases |a|
  {
    if a == [] {
      assert a + b == b;
    } else {
      PushAllConcat(absolute, Push(absolute, stack, a[0]), a[1..], b);
      assert (a + b)[1..] == a[1..] + b;
    }
  }

  lemma {:induction false} PushAllNormal(absolute: bool, stack: seq<string>, names: seq<string>)
    requires IsNormal(absolute, stack)
    requires forall i | 0 <= i < |names| :: IsName(names[i])
    ensures IsNormal(absolute, PushAll(absolute, stack, names))
    decreases |names|
  {
    if names != [] {
      PushAllNormal(absolute, Push(absolute, stack, names[0]), names[1..]);
    }
  }

  /** A normal stack is rebuilt name by name. */
  lemma {:induction false} PushAllFixed(absolute: bool, stack: seq<string>, k: nat)
    requires IsNormal(absolute, stack) && k <= |stack|
    ensures PushAll(absolute, stack[..k], stack[k..]) == stack
    decreases |stack| - k
  {
    if k < |stack| {
      assert Push(absolute, stack[..k], stack[k]) == stack[..k + 1];
      assert stack[k..][1..] == stack[k + 1..];
      PushAllFixed(absolute, stack, k + 1);
    }
  }

  /** Rule 5: a name followed by dot-dot may be taken out anywhere. */
  lemma {:induction false} DotDotCancels(absolute: bool, before: seq<string>, name: string, after: seq<string>)
    requires name != ".."
    ensures PushAll(absolute, [], before + [name, ".."] + after) == PushAll(absolute, [], before + after)
  {
    var stack := PushAll(absolute, [], before);
    PushAllConcat(absolute, [], before + [name, ".."], after);
    PushAllConcat(absolute, [], before, [name, ".."]);
    PushAllConcat(absolute, [], before, after);
    var one := Push(absolute, stack, name);
    assert Push(absolute, one, "..") == stack;
    assert [name, ".."][1..] == [".."];
    assert PushAll(absolute, one, [".."]) == PushAll(absolute, stack, []);
  }

  /** Rule 6: dot-dot right after the root directory may be taken out. */
  lemma {:induction false} DotDotAtRoot(after: seq<string>)
    ensures PushAll(true, [], [".."] + after) == PushAll(true, [], after)
  {
    assert ([".."] + after)[1..] == after;
  }

  // ---- normalize_path ----

  lemma NormalizeStack(s: string)
    requires s != ""
    ensures IsNormal(IsAbsolute(s), PushAll(IsAbsolute(s), [], Names(s)))
    ensures Normalize(s) != "" && IsAbsolute(Normalize(s)) == IsAbsolute(s)
    ensures Names(Normalize(s)) == PushAll(IsAbsolute(s), [], Names(s))
  {
    NamesAreNames(s);
    PushAllNormal(IsAbsolute(s), [], Names(s));
    RenderNames(IsAbsolute(s), PushAll(IsAbsolute(s), [], Names(s)));
  }

  /** Every result of normalize_path is one of its fixed points. */
  lemma NormalizeFixed(s: string)
    ensures Normalize(Normalize(s)) == Normalize(s)
  {
    if s != "" {
      NormalizeStack(s);
      var stack := Names(Normalize(s));
      PushAllFixed(IsAbsolute(s), stack, 0);
      assert stack[..0] == [] && stack[0..] == stack;
    }
  }

  /** Normalising the directory first does not change where a relative path leads. */
  lemma NormalizeAppend(p: string, q: string)
    requires q != "" && !IsAbsolute(q) && p != ""
    ensures Normalize(Append(Normalize(p), q)) == Normalize(Append(p, q))
  {
    NormalizeStack(p);
    var absolute, n := IsAbsolute(p), Normalize(p);
    NamesOfAppend(p, q);
    NamesOfAppend(n, q);
    PushAllFixed(absolute, Names(n), 0);
    assert Names(n)[..0] == [] && Names(n)[0..] == Names(n);
    PushAllConcat(absolute, [], Names(p), Names(q));
    PushAllConcat(absolute, [], Names(n), Names(q));
  }

  /** From any directory, a/b leads where b leads from where a leads. */
  lemma NormalizeCompose(cwd: string, a: string, b: string)
    requires a != "" && b != "" && !IsAbsolute(b)
    ensures Normalize(Append(Normalize(Append(cwd, a)), b)) == Normalize(Append(cwd, Append(a, b)))
  {
    var p := Append(cwd, a);
    NormalizeAppend(p, b);
    SameNamesSamePath(Append(p, b), Append(cwd, Append(a, b))) by {
      AppendAssociates(cwd, a, b);
    }
  }

  lemma AppendAssociates(cwd: string, a: string, b: string)
    requires a != "" && !IsAbsolute(b)
    ensures Names(Append(Append(cwd, a), b)) == Names(Append(cwd, Append(a, b)))
    ensures IsAbsolute(Append(Append(cwd, a), b)) == IsAbsolute(Append(cwd, Append(a, b)))
    ensures Append(Append(cwd, a), b) != "" && Append(cwd, Append(a, b)) != ""
  {
    AppendKeepsRoot(a, b);
    if IsAbsolute(a) {
      var ab := Append(a, b);
      assert Append(cwd, a) == a && Append(cwd, ab) == ab;
    } else {
      RelativeAppendAssociates(cwd, a, b);
    }
  }

  lemma RelativeAppendAssociates(cwd: string, a: string, b: string)
    requires a != "" && !IsAbsolute(a) && !IsAbsolute(b)
    ensures Names(Append(Append(cwd, a), b)) == Names(Append(cwd, Append(a, b)))
    ensures IsAbsolute(Append(Append(cwd, a), b)) == IsAbsolute(Append(cwd, Append(a, b)))
    ensures Append(Append(cwd, a), b) != "" && Append(cwd, Append(a, b)) != ""
  {
    var ca, ab := Append(cwd, a), Append(a, b);
    AppendKeepsRoot(cwd, a);
    AppendKeepsRoot(a, b);
    AppendKeepsRoot(ca, b);
    AppendKeepsRoot(cwd, ab);
    calc {
      Names(Append(ca, b));
      { NamesOfAppend(ca, b); }
      Names(ca) + Names(b);
      { NamesOfAppend(cwd, a); }
      Names(cwd) + Names(a) + Names(b);
      Names(cwd) + (Names(a) + Names(b));
      { NamesOfAppend(a, b); }
      Names(cwd) + Names(ab);
      { NamesOfAppend(cwd, ab); }
      Names(Append(cwd, ab));
    }
  }

  lemma AppendKeepsRoot(p: string, q: string)
    requires !IsAbsolute(q)
    ensures IsAbsolute(Append(p, q)) == IsAbsolute(p)
    ensures p != "" || q != "" ==> Append(p, q) != ""
  {
  }

  lemma SameNamesSamePath(p: string, q: string)
    requires Names(p) == Names(q) && IsAbsolute(p) == IsAbsolute(q) && p != "" && q != ""
    ensures Normalize(p) == Normalize(q)
  {
  }

  // ---- The rules, said of paths ----

  lemma {:induction false} NamesOfPiece(piece: string)
    requires '/' !in piece
    ensures Names(piece) == if piece == "" || piece == "." then [] else [piece]
  {
    SplitName(piece);
    assert Keep([]) == [];
    assert [piece][1..] == [];
  }

  lemma {:induction false} NamesAround(a: string, piece: string, b: string)
    ensures Names(a + "/" + piece + "/" + b) == Names(a) + Names(piece) + Names(b)
    ensures IsAbsolute(a + "/" + piece + "/" + b) == IsAbsolute(a + "/" + b)
  {
    NamesConcat(a + "/" + piece, b);
    NamesConcat(a, piece);
  }

  /** A repeated separator and a dot disappear. */
  lemma {:induction false} EmptyPieceDisappears(a: string, piece: string, b: string)
    requires piece == "" || piece == "."
    ensures Normalize(a + "/" + piece + "/" + b) == Normalize(a + "/" + b)
  {
    NamesOfPiece(piece);
    NamesAround(a, piece, b);
    NamesConcat(a, b);
    assert Names(a) + [] == Names(a);
    SameNamesSamePath(a + "/" + piece + "/" + b, a + "/" + b);
  }

  /** A separator at the end disappears, unless the path is the root. */
  lemma {:induction false} LastSeparatorDisappears(a: string)
    requires a != ""
    ensures Normalize(a + "/") == Normalize(a)
  {
    NamesOfPiece("");
    assert a + "/" == a + "/" + "";
    NamesConcat(a, "");
    assert Names(a) + [] == Names(a);
    SameNamesSamePath(a + "/", a);
  }

  lemma {:induction false} NamesOfTwo(a: string, first: string, second: string, b: string)
    requires IsName(first) && IsName(second)
    ensures Names(a + "/" + first + "/" + second + "/" + b) == Names(a) + [first, second] + Names(b)
    ensures IsAbsolute(a + "/" + first + "/" + second + "/" + b) == IsAbsolute(a + "/" + b)
  {
    NamesOfPiece(first);
    NamesOfPiece(second);
    var front := a + "/" + first;
    NamesAround(front, second, b);
    NamesConcat(a, first);
    assert Names(a) + [first] + [second] == Names(a) + [first, second];
  }

  lemma {:induction false} SamePath(p: string, q: string)
    requires PushAll(IsAbsolute(p), [], Names(p)) == PushAll(IsAbsolute(q), [], Names(q))
    requires IsAbsolute(p) == IsAbsolute(q) && p != "" && q != ""
    ensures Normalize(p) == Normalize(q)
  {
  }

  /** A name disappears together with dot-dot behind it. */
  lemma {:induction false} NameAndDotDotDisappear(a: string, name: string, b: string)
    requires IsName(name) && name != ".."
    ensures Normalize(a + "/" + name + "/" + ".." + "/" + b) == Normalize(a + "/" + b)
  {
    NamesOfTwo(a, name, "..", b);
    NamesConcat(a, b);
    DotDotCancels(IsAbsolute(a + "/" + b), Names(a), name, Names(b));
    SamePath(a + "/" + name + "/" + ".." + "/" + b, a + "/" + b);
  }

  /** A path of plain names is left as it is. */
  lemma {:induction false} PlainPathStays(names: seq<string>)
    requires names != [] && forall i | 0 <= i < |names| :: IsName(names[i]) && names[i] != ".."
    ensures Normalize("/" + Join(names)) == "/" + Join(names) && Normalize(Join(names)) == Join(names)
  {
    RenderNames(true, names);
    RenderNames(false, names);
    PushAllFixed(true, names, 0);
    PushAllFixed(false, names, 0);
    assert names[..0] == [] && names[0..] == names;
  }
}
