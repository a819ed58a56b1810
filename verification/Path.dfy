/** Path canonicalization (RuxOS, `crates/axfs_vfs/src/path.rs`).

    The source edits a string buffer in place; here it is proved to print the result of a stack
    machine over path components. */
module Path {
  import opened Wrappers

  /** The substrings between slashes, as `str::split('/')` gives them. */
  function Split(path: string): (parts: seq<string>)
    ensures parts != []
  {
    if path == [] then [""] else AddChar(path[0], Split(path[1..]))
  }

  function AddChar(c: char, parts: seq<string>): (r: seq<string>)
    requires parts != []
    ensures r != []
  {
    if c == '/' then [""] + parts else [[c] + parts[0]] + parts[1..]
  }

  predicate Skipped(part: string) { part == "" || part == "." }

  predicate NoSlash(part: string) { '/' !in part }

  /** A part that names something. */
  predicate IsName(part: string) { !Skipped(part) && part != ".." && NoSlash(part) }

  predicate Names(stack: seq<string>) { forall i :: 0 <= i < |stack| ==> IsName(stack[i]) }

  /** One part of a path, on a stack of names. */
  function Enter(stack: seq<string>, part: string): seq<string> {
    if Skipped(part) then stack
    else if part == ".." then (if stack == [] then [] else stack[..|stack| - 1])
    else stack + [part]
  }

  function Resolve(parts: seq<string>): seq<string> {
    if parts == [] then [] else Enter(Resolve(parts[..|parts| - 1]), parts[|parts| - 1])
  }

  function Join(stack: seq<string>): string {
    if stack == [] then ""
    else if |stack| == 1 then stack[0]
    else Join(stack[..|stack| - 1]) + "/" + stack[|stack| - 1]
  }

  function Print(absolute: bool, stack: seq<string>): string { (if absolute then "/" else "") + Join(stack) }

  predicate IsAbsolute(path: string) { path != [] && path[0] == '/' }

  /** The canonical form, as a specification. */
  function Canonical(path: string): string { Print(IsAbsolute(path), Resolve(Split(path))) }

  // ------------------------------------------------------------------

  lemma {:induction false} SplitNoSlash(path: string)
    ensures forall i :: 0 <= i < |Split(path)| ==> NoSlash(Split(path)[i])
  {
    if path != [] { SplitNoSlash(path[1..]); }
  }

  lemma {:induction false} ResolveNames(parts: seq<string>)
    requires forall i :: 0 <= i < |parts| ==> NoSlash(parts[i])
    ensures Names(Resolve(parts))
  {
    if parts != [] { ResolveNames(parts[..|parts| - 1]); }
  }

  lemma {:induction false} ResolveOfNames(stack: seq<string>)
    requires Names(stack)
    ensures Resolve(stack) == stack
  {
    if stack != [] {
      ResolveOfNames(stack[..|stack| - 1]);
      assert stack == stack[..|stack| - 1] + [stack[|stack| - 1]];
    }
  }

  lemma {:induction false} SplitPart(part: string)
    requires NoSlash(part)
    ensures Split(part) == [part]
  {
    if part != [] {
      SplitPart(part[1..]);
      assert part == [part[0]] + part[1..];
    }
  }

  lemma AddCharConcat(c: char, a: seq<string>, b: seq<string>)
    requires a != []
    ensures AddChar(c, a + b) == AddChar(c, a) + b
  {
  }

  lemma SplitFirst(path: string)
    ensures path == [] ==> Split(path) == [""]
    ensures path != [] ==> Split(path) == AddChar(path[0], Split(path[1..]))
  {
  }

  lemma {:induction false} SplitConcat(a: string, b: string)
    ensures Split(a + "/" + b) == Split(a) + Split(b)
  {
    hide Split;
    var path := a + "/" + b;
    SplitFirst(path);
    SplitFirst(a);
    if a == [] {
      assert path[1..] == b;
    } else {
      SplitConcat(a[1..], b);
      assert path[1..] == a[1..] + "/" + b;
      AddCharConcat(a[0], Split(a[1..]), Split(b));
    }
  }

  lemma {:induction false} SplitJoin(stack: seq<string>)
    requires Names(stack) && stack != []
    ensures Split(Join(stack)) == stack
  {
    var last := stack[|stack| - 1];
    SplitPart(last);
    if |stack| > 1 {
      var front := stack[..|stack| - 1];
      SplitJoin(front);
      SplitConcat(Join(front), last);
      assert stack == front + [last];
    } else {
      assert stack == [last];
    }
  }

  lemma {:induction false} JoinStart(stack: seq<string>)
    requires Names(stack)
    ensures !IsAbsolute(Join(stack)) && (stack != [] ==> Join(stack) != "")
  {
    if |stack| > 1 { JoinStart(stack[..|stack| - 1]); }
  }

  /** The parts of a printed path. */
  function PrintedParts(absolute: bool, stack: seq<string>): seq<string> {
    (if absolute then [""] else []) + (if stack == [] then [""] else stack)
  }

  lemma SplitPrint(absolute: bool, stack: seq<string>)
    requires Names(stack)
    ensures IsAbsolute(Print(absolute, stack)) == absolute
    ensures Split(Print(absolute, stack)) == PrintedParts(absolute, stack)
  {
    hide Join;
    JoinStart(stack);
    var body := Join(stack);
    assert Split(body) == if stack == [] then [""] else stack by {
      if stack != [] { SplitJoin(stack); } else { EmptyPath(); }
    }
    if absolute {
      assert Print(absolute, stack) == "/" + body && ("/" + body)[1..] == body;
    } else {
      assert Print(absolute, stack) == body;
    }
  }

  lemma ResolvePrinted(absolute: bool, stack: seq<string>)
    requires Names(stack)
    ensures Resolve(PrintedParts(absolute, stack)) == stack
  {
    hide Resolve;
    ResolveOfNames(stack);
    ResolveSkipsFirst([]);
    ResolveSkipsFirst(if stack == [] then [""] else stack);
    EmptyPath();
    assert [""] + [] == [""];
    assert PrintedParts(false, stack) == if stack == [] then [""] else stack;
  }

  lemma {:induction false} ResolveSkipsFirst(parts: seq<string>)
    ensures Resolve([""] + parts) == Resolve(parts)
  {
    if parts != [] {
      ResolveSkipsFirst(parts[..|parts| - 1]);
      assert ([""] + parts)[..|parts|] == [""] + parts[..|parts| - 1];
    }
  }

  lemma StackNames(path: string)
    ensures Names(Resolve(Split(path)))
  {
    SplitNoSlash(path);
    ResolveNames(Split(path));
  }

  /** A canonical path is its own canonical form. */
  lemma CanonicalIdempotent(path: string)
    ensures Canonical(Canonical(path)) == Canonical(path)
  {
    hide Split, Join, Resolve, PrintedParts;
    StackNames(path);
    SplitPrint(IsAbsolute(path), Resolve(Split(path)));
    ResolvePrinted(IsAbsolute(path), Resolve(Split(path)));
  }

  lemma EmptyPath()
    ensures Resolve([]) == [] && Join([]) == ""
  {
  }

  /** Two paths have the same canonical form exactly when they are both absolute or both relative
      and name the same components. */
  lemma CanonicalDecides(p: string, q: string)
    ensures Canonical(p) == Canonical(q) <==> IsAbsolute(p) == IsAbsolute(q) && Resolve(Split(p)) == Resolve(Split(q))
  {
    hide Split, Join, Resolve, PrintedParts, Print;
    StackNames(p);
    StackNames(q);
    SplitPrint(IsAbsolute(p), Resolve(Split(p)));
    SplitPrint(IsAbsolute(q), Resolve(Split(q)));
    ResolvePrinted(IsAbsolute(p), Resolve(Split(p)));
    ResolvePrinted(IsAbsolute(q), Resolve(Split(q)));
  }

  // ------------------------------------------------------------------
  // The string buffer

  /** The buffer while the stack is `stack`; an absolute path whose names have all been taken back
      may have left its slash behind. */
  predicate Holds(absolute: bool, stack: seq<string>, buf: string) {
    if stack == [] then buf == "" || (absolute && buf == "/") else buf == Print(absolute, stack)
  }

  /** A character of more than one byte in UTF-8. */
  predicate IsWide(c: char) { c >= 128 as char }

  predicate EndsWide(text: string) { text != "" && IsWide(text[|text| - 1]) }

  /** The bytes of a character in UTF-8 (section 3 of RFC 3629). */
  function Utf8Len(c: char): nat {
    if c as int < 0x80 then 1 else if c as int < 0x800 then 2 else if c as int < 0x1_0000 then 3 else 4
  }

  /** `String::len`. */
  function ByteLen(text: string): nat {
    if text == "" then 0 else ByteLen(text[..|text| - 1]) + Utf8Len(text[|text| - 1])
  }

  /** Slicing at byte `n` does not panic. */
  predicate IsCharBoundary(text: string, n: nat) {
    exists k :: 0 <= k <= |text| && ByteLen(text[..k]) == n
  }

  lemma {:induction false} ByteLenGrows(text: string, k: nat)
    requires k <= |text|
    ensures ByteLen(text[..k]) <= ByteLen(text)
  {
    if k == |text| {
      assert text[..k] == text;
    } else {
      var front := text[..|text| - 1];
      ByteLenGrows(front, k);
      assert front[..k] == text[..k];
    }
  }

  /** The last byte of a text can be sliced off exactly when the last character is that byte. */
  lemma LastBoundary(text: string)
    requires text != ""
    ensures ByteLen(text) > 0 && (IsCharBoundary(text, ByteLen(text) - 1) <==> !EndsWide(text))
  {
    var front := text[..|text| - 1];
    forall k | 0 <= k < |text| ensures ByteLen(text[..k]) <= ByteLen(front) {
      ByteLenGrows(front, k);
      assert front[..k] == text[..k];
    }
    assert text[..|text|] == text;
  }

  /** At part `k`, a name is to be put after one that ends in a wide character. */
  predicate PanicsAt(parts: seq<string>, k: nat)
    requires k < |parts|
  {
    var stack := Resolve(parts[..k]);
    !Skipped(parts[k]) && parts[k] != ".." && stack != [] && EndsWide(stack[|stack| - 1])
  }

  /** The byte slice of the source meets the middle of a character. */
  ghost predicate Panics(path: string) {
    exists k :: 0 <= k < |Split(path)| && PanicsAt(Split(path), k)
  }

  lemma JoinEnd(stack: seq<string>)
    requires Names(stack) && stack != []
    ensures Join(stack) != "" && Join(stack)[|Join(stack)| - 1] != '/'
  {
    var last := stack[|stack| - 1];
    assert IsName(last) && last[|last| - 1] in last;
  }

  lemma PrintEnd(absolute: bool, stack: seq<string>)
    requires Names(stack) && stack != []
    ensures var text := Print(absolute, stack); text != "" && text != "/" && text[|text| - 1] != '/'
  {
    hide Join;
    JoinStart(stack);
    JoinEnd(stack);
    if !absolute { assert Print(absolute, stack) == Join(stack); }
  }

  /** What the buffer shows before the last name. */
  function Base(absolute: bool, front: seq<string>): string {
    if front == [] then (if absolute then "/" else "") else Print(absolute, front) + "/"
  }

  lemma LastName(absolute: bool, stack: seq<string>)
    requires Names(stack) && stack != []
    ensures var front, last := stack[..|stack| - 1], stack[|stack| - 1];
            && Print(absolute, stack) == Base(absolute, front) + last && last != "" && NoSlash(last)
            && (front != [] ==> Print(absolute, front) != "")
  {
    var front := stack[..|stack| - 1];
    assert IsName(stack[|stack| - 1]);
    if front != [] { PrintEnd(absolute, front); }
  }

  lemma EndsInName(base: string, last: string, j: nat)
    requires NoSlash(last) && j <= |last|
    ensures j > 0 ==> base + last[..j] != "/"
  {
    if j > 0 {
      assert (base + last[..j])[|base| + j - 1] == last[j - 1] && last[j - 1] in last;
    }
  }

  /** Taking back the last name, and the slash before it unless it is the first character. */
  method PopName(absolute: bool, text: string, ghost stack: seq<string>) returns (buf: string)
    requires Names(stack) && Holds(absolute, stack, text)
    ensures Holds(absolute, Enter(stack, ".."), buf)
  {
    hide Names, Print, Enter;
    EnterCases(stack, "..");
    ghost var front, last := [], "";
    if stack != [] {
      LastName(absolute, stack);
      front, last := stack[..|stack| - 1], stack[|stack| - 1];
    }
    ghost var base := Base(absolute, front);
    ghost var j := |last|;
    buf := text;
    while buf != ""
      invariant 0 <= j <= |last| && NoSlash(last) && (if stack == [] then buf == text else buf == base + last[..j])
      decreases |buf|
    {
      EndsInName(base, last, j);
      if buf == "/" { break; }
      var c := buf[|buf| - 1];
      buf := buf[..|buf| - 1];
      if j > 0 {
        assert c == last[j - 1] && c in last;
        assert buf == base + last[..j - 1];
        j := j - 1;
      } else {
        assert c == '/' && buf == Print(absolute, front);
      }
      if c == '/' { break; }
    }
  }

  /** Putting a name after what is there; slicing off the last byte of a wide character panics. */
  method PushName(absolute: bool, text: string, part: string, ghost stack: seq<string>) returns (buf: Option<string>)
    requires Names(stack) && Holds(absolute, stack, text) && IsName(part)
    ensures buf.None? <==> stack != [] && EndsWide(stack[|stack| - 1])
    ensures buf.Some? ==> Holds(absolute, stack + [part], buf.value)
  {
    hide IsCharBoundary, ByteLen;
    var out := text;
    if stack != [] {
      PrintEnd(absolute, stack);
      LastName(absolute, stack);
    }
    if out == "" {
      if absolute { out := out + "/"; }
    } else {
      LastBoundary(out);
      if !IsCharBoundary(out, ByteLen(out) - 1) { return None; }
      if out[|out| - 1..] != "/" { out := out + "/"; }
    }
    PrintPush(absolute, stack, part);
    buf := Some(out + part);
  }

  lemma PrintPush(absolute: bool, stack: seq<string>, part: string)
    ensures Print(absolute, stack + [part]) == Base(absolute, stack) + part
  {
    assert (stack + [part])[..|stack|] == stack;
  }

  /** `canonicalize`; no result stands for the panic. */
  method Canonicalize(path: string) returns (r: Option<string>)
    ensures r == if Panics(path) then None else Some(Canonical(path))
  {
    hide Print, Split, Resolve, Enter;
    var buf := "";
    var isAbsolute := path != [] && path[0] == '/';
    var parts := Split(path);
    SplitNoSlash(path);
    EmptyPath();
    assert parts[..0] == [];
    for n := 0 to |parts|
      invariant Holds(isAbsolute, Resolve(parts[..n]), buf)
      invariant forall k :: 0 <= k < n ==> !PanicsAt(parts, k)
    {
      var part := parts[n];
      ghost var stack := Resolve(parts[..n]);
      ResolveNames(parts[..n]);
      ResolveOne(parts, n);
      EnterCases(stack, part);
      if part == "" || part == "." {
      } else if part == ".." {
        buf := PopName(isAbsolute, buf, stack);
      } else {
        var pushed := PushName(isAbsolute, buf, part, stack);
        if pushed.None? {
          assert PanicsAt(parts, n);
          return None;
        }
        buf := pushed.value;
      }
    }
    assert parts[..|parts|] == parts;
    PrintNothing(isAbsolute);
    ResolveNames(parts);
    if Resolve(parts) != [] { PrintEnd(isAbsolute, Resolve(parts)); }
    if isAbsolute && buf == "" {
      buf := "/";
    }
    r := Some(buf);
  }

  lemma {:induction false} SplitChars(path: string, i: nat, c: char)
    requires i < |Split(path)| && c in Split(path)[i]
    ensures c in path
  {
    if path[0] == '/' {
      SplitChars(path[1..], i - 1, c);
    } else if i > 0 {
      SplitChars(path[1..], i, c);
    } else if c != path[0] {
      SplitChars(path[1..], 0, c);
    }
  }

  lemma {:induction false} ResolvedArePart(parts: seq<string>, name: string)
    requires name in Resolve(parts)
    ensures name in parts
  {
    if parts != [] {
      var front, last := parts[..|parts| - 1], parts[|parts| - 1];
      if name != last { ResolvedArePart(front, name); }
    }
  }

  /** ASCII paths never panic. */
  lemma AsciiIsSafe(path: string)
    requires forall c :: c in path ==> c as int < 0x80
    ensures !Panics(path)
  {
    var parts := Split(path);
    forall k | 0 <= k < |parts| ensures !PanicsAt(parts, k) {
      var stack := Resolve(parts[..k]);
      if stack != [] {
        var name := stack[|stack| - 1];
        ResolvedArePart(parts[..k], name);
        var i :| 0 <= i < |parts| && parts[i] == name;
        if name != "" { SplitChars(path, i, name[|name| - 1]); }
      }
    }
  }

  lemma ResolveOne(parts: seq<string>, n: nat)
    requires n < |parts|
    ensures Resolve(parts[..n + 1]) == Enter(Resolve(parts[..n]), parts[n])
  {
    assert parts[..n + 1][..n] == parts[..n];
  }

  lemma EnterCases(stack: seq<string>, part: string)
    ensures Skipped(part) ==> Enter(stack, part) == stack
    ensures !Skipped(part) && part != ".." ==> Enter(stack, part) == stack + [part]
    ensures part == ".." ==> Enter(stack, part) == if stack == [] then [] else stack[..|stack| - 1]
  {
  }

  lemma PrintNothing(absolute: bool)
    ensures Print(absolute, []) == if absolute then "/" else ""
  {
  }
}
