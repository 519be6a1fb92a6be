/**
 Building a new process's stack from its command line (dec_esp and init_stack in proj2/src/userprog/process.c).

 The stack is the single page below PHYS_BASE, an array of 4096 bytes; `esp` is an offset into it, and the
 words stored on it are addresses.
 */
module InitStack {
  import opened Lists
  import opened Bytes
  import opened Tokens

  /** The address of the page's first byte. */
  const BASE := 0xbfff_f000

  const SPACE: set<byte> := {32}

  /** The word at offset `at`. */
  function Load(page: seq<byte>, at: int): nat
    requires 0 <= at && at + 4 <= |page|
  {
    Word(page[at..at + 4])
  }

  /** The bytes below `at` may have changed, those from `at` on have not. */
  ghost predicate SameFrom(page: seq<byte>, page': seq<byte>, at: int) {
    && |page'| == |page|
    && forall i {:trigger page'[i]} :: 0 <= i < |page| && at <= i ==> page'[i] == page[i]
  }

  lemma LoadSame(page: seq<byte>, page': seq<byte>, from: int, at: int)
    requires SameFrom(page, page', from) && 0 <= at && from <= at && at + 4 <= |page|
    ensures Load(page', at) == Load(page, at)
  {
    assert page'[at..at + 4] == page[at..at + 4];
  }

  lemma StringSame(page: seq<byte>, page': seq<byte>, from: int, at: int, w: seq<byte>)
    requires SameFrom(page, page', from) && from <= at && StringAt(page, at, w)
    ensures StringAt(page', at, w)
  {
  }

  /** The bytes that words and their terminators take. */
  function Size(words: seq<seq<byte>>): nat {
    if words == [] then 0 else Size(words[..|words| - 1]) + |words[|words| - 1]| + 1
  }

  /** How many words the first loop stores before the page is full. */
  function FitCount(words: seq<seq<byte>>): nat {
    if words == [] then 0 else if Size(words) < 4096 then |words| else FitCount(words[..|words| - 1])
  }

  /** How many pointers are written: one for each word stored and, if all are, the null after them.  The page for
      them has room for 1024. */
  function PointerCount(words: seq<seq<byte>>): nat {
    FitCount(words) + if Size(words) < 4096 then 1 else 0
  }

  lemma {:induction false} FitAtLeast(words: seq<seq<byte>>, k: nat)
    requires k <= |words| && Size(words[..k]) < 4096
    ensures k <= FitCount(words)
    decreases |words|
  {
    if k < |words| && Size(words) >= 4096 {
      assert words[..|words| - 1][..k] == words[..k];
      FitAtLeast(words[..|words| - 1], k);
    } else {
      assert k == |words| ==> words[..k] == words;
    }
  }

  lemma {:induction false} FitAtMost(words: seq<seq<byte>>, k: nat)
    requires k < |words| && Size(words[..k + 1]) >= 4096
    ensures FitCount(words) <= k
    decreases |words|
  {
    if k + 1 == |words| {
      assert words[..k + 1] == words;
      FitSome(words[..k]);
    } else {
      SizeNext(words, k);
      assert words[..|words| - 1][..k + 1] == words[..k + 1];
      FitAtMost(words[..|words| - 1], k);
    }
  }

  lemma {:induction false} FitSome(words: seq<seq<byte>>)
    ensures FitCount(words) <= |words|
  {
    if words != [] && Size(words) >= 4096 { FitSome(words[..|words| - 1]); }
  }

  /** 1024 words of one letter: the null behind their pointers is the 1025th. */
  lemma ManyWords()
    ensures var line := Joined(seq(1024, _ => [97 as byte]), 32);
      |line| <= 4095 && |Words(line, SPACE)| == 1024 && PointerCount(Words(line, SPACE)) == 1025
  {
    var words := seq(1024, _ => [97 as byte]);
    Letters(words);
    WordsOfJoined(words, 32, SPACE);
  }

  lemma {:induction false} Letters(words: seq<seq<byte>>)
    requires forall i :: 0 <= i < |words| ==> words[i] == [97 as byte]
    ensures |Joined(words, 32)| == 2 * |words| == Size(words)
  {
    if words != [] {
      Letters(words[1..]);
      assert words == [words[0]] + words[1..] && |words[0]| == 1;
      SizeCons(words[0], words[1..]);
    }
  }

  lemma {:induction false} SizeCons(w: seq<byte>, words: seq<seq<byte>>)
    ensures Size([w] + words) == |w| + 1 + Size(words)
  {
    var all := [w] + words;
    if words == [] {
      assert all[..0] == [];
    } else {
      assert all[..|all| - 1] == [w] + words[..|words| - 1];
      SizeCons(w, words[..|words| - 1]);
    }
  }

  /** Words and their terminators take no more room than the string they come from, with its own. */
  lemma {:induction false} SizeBound(s: seq<byte>)
    ensures Size(Words(s, SPACE)) <= |s| + 1
    decreases |s|
  {
    var t := Skip(s, SPACE);
    if t != [] {
      var n := TokenLength(t, SPACE);
      SizeCons(t[..n], Words(t[n..], SPACE));
      if n < |t| {
        DelimiterFirst(t[n..], SPACE);
        SizeBound(t[n..][1..]);
      }
    }
  }

  /** No command line writes past the page of pointers if it has at most 1023 words; beyond that, only one that
      fills the stack's page with its strings to the last byte, and has at most 1025, does not. */
  lemma PointersFitIff(line: seq<byte>)
    requires |line| <= 4095
    ensures var words := Words(line, SPACE);
      PointerCount(words) <= 1024 <==> |words| <= 1023 || (|words| <= 1025 && Size(words) == 4096)
  {
    var words := Words(line, SPACE);
    SizeBound(line);
    if words != [] && Size(words) == 4096 {
      assert FitCount(words[..|words| - 1]) == |words| - 1;
    }
  }

  /** All of the stack, for these words: the strings, rounded up to a word, then argv with its null, argv's
      address, argc and the return address. */
  function Total(words: seq<seq<byte>>): nat { RoundUp(Size(words)) + 4 * (|words| + 1) + 12 }

  /** To a multiple of 4. */
  function RoundUp(n: nat): (r: nat)
    ensures n <= r < n + 4 && r % 4 == 0
  {
    (n + 3) / 4 * 4
  }

  class Stack {
    var page: array<byte>
    var esp: int

    ghost predicate Valid()
      reads this
    {
      page.Length == 4096 && esp <= 4096
    }

    /** `dec_esp`. */
    method DecEsp(size: nat) returns (ok: bool)
      modifies this`esp
      ensures esp == old(esp) - size && (ok <==> esp > 0)
    {
      esp := esp - size;
      ok := esp > 0;
    }

    /** `strlcpy` of a token to `*esp`, after `dec_esp` made room for it. */
    method PutString(src: array<byte>, from: nat, size: nat, ghost w: seq<byte>)
      requires Valid() && src != page && StringAt(src[..], from, w) && size == |w| && 0 <= esp && esp + size + 1 <= 4096
      modifies page
      ensures StringAt(page[..], esp, w) && SameFrom(old(page[..]), page[..], esp + |w| + 1)
    {
      var i := 0;
      while i < size
        invariant 0 <= i <= size
        invariant forall k :: 0 <= k < i ==> page[esp + k] == w[k]
        invariant SameFrom(old(page[..]), page[..], esp + |w| + 1)
      {
        assert src[..][from + i] == w[i];
        page[esp + i] := src[from + i];
        i := i + 1;
      }
      page[esp + size] := 0;
    }

    /** A word at `*esp + ofs`. */
    method PutWord(at: int, v: nat)
      requires Valid() && 0 <= at && at + 4 <= 4096 && v < 0x1_0000_0000
      modifies page
      ensures Load(page[..], at) == v && SameFrom(old(page[..]), page[..], at + 4)
      ensures forall i :: 0 <= i < at ==> page[i] == old(page[i])
    {
      var b := WordBytes(v);
      page[at], page[at + 1], page[at + 2], page[at + 3] := b[0], b[1], b[2], b[3];
      assert page[..][at..at + 4] == b;
    }

    /** `strnlen` of a token. */
    method Length(src: array<byte>, from: nat, ghost w: seq<byte>) returns (n: nat)
      requires StringAt(src[..], from, w)
      ensures n == |w|
    {
      n := 0;
      NullEnds(src[..], from, w, 0);
      while src[from + n] != 0
        invariant n <= |w| && (src[from + n] == 0 <==> n == |w|)
        decreases |w| - n
      {
        n := n + 1;
        NullEnds(src[..], from, w, n);
      }
    }

    /** Word i of the command line lies where pointer i says. */
    ghost predicate Placed(pointers: seq<nat>, words: seq<seq<byte>>)
      reads this, page
    {
      && |pointers| == |words|
      && forall i {:trigger pointers[i]} :: 0 <= i < |words| ==>
           && BASE + esp <= pointers[i] < 0xc000_0000 && StringAt(page[..], pointers[i] - BASE, words[i])
    }

    /** One word onto the stack, and its address into `pointers`. */
    method PushWord(fnCopy: array<byte>, args: nat, pointers: array<nat>, argc: nat,
                    ghost words: seq<seq<byte>>, ghost w: seq<byte>) returns (ok: bool)
      requires Valid() && 0 < esp && fnCopy != page && StringAt(fnCopy[..], args, w)
      requires argc <= pointers.Length && (argc < pointers.Length || esp <= |w| + 1) && Placed(pointers[..argc], words)
      modifies this`esp, page, pointers
      ensures Valid() && esp == old(esp) - |w| - 1 && (ok <==> esp > 0)
      ensures ok ==> argc < pointers.Length && Placed(pointers[..argc + 1], words + [w])
      ensures !ok ==> Placed(pointers[..argc], words) && pointers[..] == old(pointers[..])
      ensures forall i {:trigger pointers[i]} :: 0 <= i < pointers.Length && i != argc ==>
        pointers[i] == old(pointers[i])
    {
      var size := Length(fnCopy, args, w);
      ok := DecEsp(size + 1);
      if ok {
        ghost var before, ps := page[..], pointers[..argc];
        PutString(fnCopy, args, size, w);
        pointers[argc] := BASE + esp;
        forall i | 0 <= i < argc
          ensures StringAt(page[..], pointers[i] - BASE, words[i])
        {
          assert pointers[i] == ps[i];
          StringSame(before, page[..], old(esp), ps[i] - BASE, words[i]);
        }
        assert pointers[..argc] == ps;
      }
    }

    method PushNext(fnCopy: array<byte>, args: nat, pointers: array<nat>, argc: nat, ghost all: seq<seq<byte>>)
      returns (ok: bool)
      requires argc < |all| && argc <= FitCount(all) && PointerCount(all) <= pointers.Length
      requires Valid() && 0 < esp == 4096 - Size(all[..argc]) && fnCopy != page && StringAt(fnCopy[..], args, all[argc])
      requires Placed(pointers[..argc], all[..argc])
      modifies this`esp, page, pointers
      ensures Valid()
      ensures ok ==> argc < FitCount(all) && 0 < esp == 4096 - Size(all[..argc + 1])
      ensures ok ==> Placed(pointers[..argc + 1], all[..argc + 1])
      ensures forall i {:trigger pointers[i]} :: 0 <= i < pointers.Length && i != argc ==>
        pointers[i] == old(pointers[i])
      ensures !ok ==> Size(all) >= 4096 && argc == FitCount(all)
      ensures !ok ==> Placed(pointers[..argc], all[..argc]) && pointers[..] == old(pointers[..])
    {
      SizeNext(all, argc);
      if Size(all[..argc + 1]) < 4096 { FitAtLeast(all, argc + 1); } else { FitAtMost(all, argc); }
      ok := PushWord(fnCopy, args, pointers, argc, all[..argc], all[argc]);
      assert all[..argc] + [all[argc]] == all[..argc + 1];
    }

    /** The first loop.  It fails if the strings alone fill the page.  Either way it stores FitCount pointers, for
        which there must be room, and one more when Terminate adds the null. */
    method PushWords(fnCopy: array<byte>, pointers: array<nat>, ghost line: seq<byte>) returns (ok: bool, argc: nat)
      requires Valid() && esp == 4096 && fnCopy != page
      requires Uncut(fnCopy[..], 0, line) && PointerCount(Words(line, SPACE)) <= pointers.Length
      modifies this`esp, page, fnCopy, pointers
      ensures Valid()
      ensures ok <==> Size(Words(line, SPACE)) < 4096
      ensures argc == FitCount(Words(line, SPACE)) <= pointers.Length && argc <= |Words(line, SPACE)|
      ensures Placed(pointers[..argc], Words(line, SPACE)[..argc])
      ensures forall i {:trigger pointers[i]} :: argc <= i < pointers.Length ==> pointers[i] == old(pointers[i])
      ensures ok ==> argc == |Words(line, SPACE)| && esp == 4096 - Size(Words(line, SPACE))
    {
      ghost var all, rest := Words(line, SPACE), line;
      argc, ok := 0, true;
      var args, save;
      args, save, rest := NextWord(fnCopy, 0, line, all, 0);
      while args.Some?
        invariant Valid() && argc <= |all| && argc <= FitCount(all) && 0 < esp == 4096 - Size(all[..argc])
        invariant Scanning(fnCopy[..], args, save, rest, all, argc)
        invariant Placed(pointers[..argc], all[..argc])
        invariant forall i {:trigger pointers[i]} :: argc <= i < pointers.Length ==> pointers[i] == old(pointers[i])
        decreases |all| - argc
      {
        ok := PushNext(fnCopy, args.value, pointers, argc, all);
        if !ok { return false, argc; }
        argc := argc + 1;
        args, save, rest := NextWord(fnCopy, save, rest, all, argc);
      }
      assert all[..argc] == all;
      FitAtLeast(all, argc);
    }

    // ----- after the strings -----

    /** The padding loop: at most three bytes, and never below the page. */
    method Align()
      requires Valid() && 0 < esp
      modifies this`esp, page
      ensures Valid() && esp == old(esp) - old(esp) % 4 && SameFrom(old(page[..]), page[..], old(esp))
    {
      while esp % 4 != 0
        invariant 0 <= esp <= old(esp) && esp - esp % 4 == old(esp) - old(esp) % 4
        invariant SameFrom(old(page[..]), page[..], old(esp))
        decreases esp
      {
        esp := esp - 1;
        page[esp] := 48;
      }
    }

    /** The words from `esp` up are those of `argv` from k on. */
    ghost predicate Argv(pointers: seq<nat>, k: int)
      requires Valid()
      reads this, page
    {
      && 0 <= k <= |pointers| && 0 <= esp && esp + 4 * (|pointers| - k) <= 4096
      && forall j {:trigger pointers[j]} :: k <= j < |pointers| ==> Load(page[..], esp + 4 * (j - k)) == pointers[j]
    }

    /** One turn of the loop that pushes pointers. */
    method PushPointer(pointers: array<nat>, i: nat, ghost ps: seq<nat>) returns (ok: bool)
      requires Valid() && 0 <= esp && i < |ps| <= pointers.Length && pointers[..|ps|] == ps && Argv(ps, i + 1)
      requires forall j :: 0 <= j < |ps| ==> ps[j] < 0x1_0000_0000
      modifies this`esp, page
      ensures Valid() && esp == old(esp) - 4 && (ok <==> esp > 0)
      ensures ok ==> Argv(ps, i) && SameFrom(old(page[..]), page[..], old(esp))
    {
      ghost var before, e := page[..], esp;
      ok := DecEsp(4);
      if ok {
        assert pointers[i] == ps[i];
        PutWord(esp, pointers[i]);
        forall j | i <= j < |ps|
          ensures Load(page[..], esp + 4 * (j - i)) == ps[j]
        {
          if j > i { LoadSame(before, page[..], e, e + 4 * (j - (i + 1))); }
        }
      }
    }

    /** The loop over the pointers, from the null at the end down.  It fails if they do not fit. */
    method PushPointers(pointers: array<nat>, argc: nat, ghost ps: seq<nat>) returns (ok: bool)
      requires Valid() && 0 <= esp && argc + 1 == |ps| <= pointers.Length && pointers[..|ps|] == ps
      requires forall j :: 0 <= j < |ps| ==> ps[j] < 0x1_0000_0000
      modifies this`esp, page
      ensures Valid() && (ok <==> 4 * (argc + 1) < old(esp))
      ensures ok ==> esp == old(esp) - 4 * (argc + 1) && Argv(ps, 0) && SameFrom(old(page[..]), page[..], old(esp))
    {
      var i := argc;
      ok := true;
      while i >= 0
        invariant -1 <= i <= argc && Valid() && 0 <= esp == old(esp) - 4 * (argc - i)
        invariant (i < argc ==> esp > 0) && pointers[..|ps|] == ps && Argv(ps, i + 1)
        invariant SameFrom(old(page[..]), page[..], old(esp))
      {
        ok := PushPointer(pointers, i, ps);
        if !ok { return; }
        i := i - 1;
      }
    }

    /** The last three words: argv, argc and a return address. */
    method PushCall(argc: nat) returns (ok: bool)
      requires Valid() && 0 <= esp && argc < 0x1_0000_0000
      modifies this`esp, page
      ensures Valid() && esp == old(esp) - 12 && (ok <==> esp > 0)
      ensures ok ==> SameFrom(old(page[..]), page[..], old(esp))
      ensures ok ==> Load(page[..], esp) == 0 && Load(page[..], esp + 4) == argc
      ensures ok ==> Load(page[..], esp + 8) == BASE + old(esp)
    {
      var argv := BASE + esp;
      ok := DecEsp(12);
      if ok {
        PutWord(esp + 8, argv);
        ghost var p1 := page[..];
        PutWord(esp + 4, argc);
        ghost var p2 := page[..];
        LoadSame(p1, p2, esp + 8, esp + 8);
        PutWord(esp, 0);
        LoadSame(p2, page[..], esp + 4, esp + 4);
        LoadSame(p2, page[..], esp + 4, esp + 8);
      }
    }

    /** Alignment, and the null at the end of the pointers. */
    method Terminate(pointers: array<nat>, argc: nat, ghost words: seq<seq<byte>>) returns (ghost ps: seq<nat>)
      requires Valid() && 0 < esp == 4096 - Size(words) && argc == |words| < pointers.Length
      requires Placed(pointers[..argc], words)
      modifies this`esp, page, pointers
      ensures Valid() && esp == 4096 - RoundUp(Size(words)) && pointers[..argc + 1] == ps
      ensures forall i {:trigger pointers[i]} :: argc < i < pointers.Length ==> pointers[i] == old(pointers[i])
      ensures StringsAt(page[..], old(esp), ps, words)
    {
      ghost var strings, e0, p0 := pointers[..argc], esp, page[..];
      ps := strings + [0];
      assert StringsAt(p0, e0, ps, words);
      Align();
      Padded(Size(words));
      StringsKept(p0, page[..], e0, e0, ps, words);
      pointers[argc] := 0;
      assert pointers[..argc + 1] == ps;
    }

    /** The pointers, argv, argc and the return address. */
    method PushRest(pointers: array<nat>, argc: nat, ghost ps: seq<nat>, ghost words: seq<seq<byte>>) returns (ok: bool)
      requires Valid() && 0 <= esp && argc == |words| < pointers.Length
      requires pointers[..argc + 1] == ps && StringsAt(page[..], esp, ps, words)
      modifies this`esp, page
      ensures Valid() && (ok <==> 4 * (argc + 1) + 12 < old(esp))
      ensures ok ==> esp == old(esp) - (4 * (argc + 1) + 12) && Ready(page[..], esp, words)
    {
      ghost var p1, e1 := page[..], esp;
      ok := PushPointers(pointers, argc, ps);
      if ok {
        ghost var p2, e2 := page[..], esp;
        StringsKept(p1, p2, e1, e1, ps, words);
        ok := PushCall(argc);
        if ok {
          StringsKept(p2, page[..], e2, e1, ps, words);
          ArgvKept(p2, page[..], e2, ps);
          ReadyFrom(page[..], esp, e1, ps, words);
        }
      }
    }

    /** The second half of `init_stack`. */
    method Finish(pointers: array<nat>, argc: nat, ghost words: seq<seq<byte>>) returns (ok: bool)
      requires Valid() && 0 < esp && argc == |words| < pointers.Length && esp == 4096 - Size(words)
      requires Placed(pointers[..argc], words)
      modifies this`esp, page, pointers
      ensures Valid() && (ok <==> Total(words) < 4096)
      ensures ok ==> esp % 4 == 0 && esp == 4096 - Total(words) && Ready(page[..], esp, words)
    {
      ghost var ps := Terminate(pointers, argc, words);
      FourDivides(RoundUp(Size(words)), argc);
      StringsLower(page[..], 4096 - Size(words), esp, ps, words);
      ok := PushRest(pointers, argc, ps, words);
    }

    /** `init_stack`, for command lines that do not write past the page of pointers.  Success means: the command
        line's words, in order, with their count and a null after them; it fails only for want of memory or
        because they do not fit the page, and then wrote nowhere else. */
    method Init(fileName: seq<byte>, copyOk: bool, pointersOk: bool) returns (success: bool)
      requires Valid() && esp == 4096 && IsCString(fileName) && PointerCount(Words(Line(fileName), SPACE)) <= 1024
      modifies this`esp, page
      ensures Valid() && page == old(page)
      ensures success <==> copyOk && pointersOk && Total(Words(Line(fileName), SPACE)) < 4096
      ensures success ==> esp % 4 == 0 && Ready(page[..], esp, Words(Line(fileName), SPACE))
    {
      if !copyOk || !pointersOk { return false; }
      var fnCopy := CopyName(fileName);
      var pointers := new nat[1024];
      ghost var words := Words(Line(fileName), SPACE);
      var argc;
      success, argc := PushWords(fnCopy, pointers, Line(fileName));
      if success {
        success := Finish(pointers, argc, words);
      }
    }
  }

  /** What is left of a name after `strlcpy` into one page. */
  function Line(fileName: seq<byte>): (line: seq<byte>)
    ensures line <= fileName && (|line| == 4095 || line == fileName) && |line| <= 4095
    ensures IsCString(fileName) ==> IsCString(line)
  {
    if |fileName| <= 4095 then fileName else fileName[..4095]
  }

  /** `palloc_get_page` and `strlcpy (fn_copy, file_name, PGSIZE)`. */
  method CopyName(fileName: seq<byte>) returns (fnCopy: array<byte>)
    requires IsCString(fileName)
    ensures fresh(fnCopy) && Uncut(fnCopy[..], 0, Line(fileName))
  {
    fnCopy := new byte[4096];
    var n := if |fileName| <= 4095 then |fileName| else 4095;
    var i := 0;
    while i < n
      invariant 0 <= i <= n
      invariant forall k :: 0 <= k < i ==> fnCopy[k] == fileName[k]
    {
      fnCopy[i] := fileName[i];
      i := i + 1;
    }
    fnCopy[n] := 0;
  }

  /** Pointers ps: the words' strings, at `lowest` or above, and a null. */
  ghost predicate StringsAt(page: seq<byte>, lowest: int, ps: seq<nat>, words: seq<seq<byte>>) {
    && |ps| == |words| + 1 && ps[|words|] == 0
    && forall i {:trigger ps[i]} {:trigger words[i]} :: 0 <= i < |words| ==>
         BASE + lowest <= ps[i] < 0xc000_0000 && StringAt(page, ps[i] - BASE, words[i])
  }

  lemma StringsKept(page: seq<byte>, page': seq<byte>, from: int, lowest: int, ps: seq<nat>, words: seq<seq<byte>>)
    requires SameFrom(page, page', from) && from <= lowest && StringsAt(page, lowest, ps, words)
    ensures StringsAt(page', lowest, ps, words)
  {
    forall i | 0 <= i < |words|
      ensures StringAt(page', ps[i] - BASE, words[i])
    {
      StringSame(page, page', from, ps[i] - BASE, words[i]);
    }
  }

  lemma StringsLower(page: seq<byte>, lowest: int, lower: int, ps: seq<nat>, words: seq<seq<byte>>)
    requires StringsAt(page, lowest, ps, words) && lower <= lowest
    ensures StringsAt(page, lower, ps, words)
  {
  }

  lemma ArgvKept(page: seq<byte>, page': seq<byte>, at: int, ps: seq<nat>)
    requires SameFrom(page, page', at) && 0 <= at && at + 4 * |ps| <= |page|
    requires forall j {:trigger ps[j]} :: 0 <= j < |ps| ==> Load(page, at + 4 * j) == ps[j]
    ensures forall j {:trigger ps[j]} :: 0 <= j < |ps| ==> Load(page', at + 4 * j) == ps[j]
  {
    forall j | 0 <= j < |ps|
      ensures Load(page', at + 4 * j) == ps[j]
    {
      LoadSame(page, page', at, at + 4 * j);
    }
  }

  /** What a program finds on its stack. */
  ghost predicate Ready(page: seq<byte>, esp: int, words: seq<seq<byte>>) {
    && 0 < esp && esp + 12 + 4 * (|words| + 1) <= |page|
    && Load(page, esp) == 0 && Load(page, esp + 4) == |words| && Load(page, esp + 8) == BASE + esp + 12
    && (forall i {:trigger words[i]} :: 0 <= i < |words| ==>
          StringAt(page, Load(page, esp + 12 + 4 * i) - BASE, words[i]))
    && Load(page, esp + 12 + 4 * |words|) == 0
  }

  lemma ReadyFrom(page: seq<byte>, esp: int, lowest: int, ps: seq<nat>, words: seq<seq<byte>>)
    requires 0 < esp && esp + 12 + 4 * |ps| <= |page| && StringsAt(page, lowest, ps, words)
    requires Load(page, esp) == 0 && Load(page, esp + 4) == |words| && Load(page, esp + 8) == BASE + esp + 12
    requires forall j {:trigger ps[j]} :: 0 <= j < |ps| ==> Load(page, esp + 12 + 4 * j) == ps[j]
    ensures Ready(page, esp, words)
  {
    assert ps[|words|] == 0;
    forall i | 0 <= i < |words|
      ensures StringAt(page, Load(page, esp + 12 + 4 * i) - BASE, words[i])
    {
      assert Load(page, esp + 12 + 4 * i) == ps[i];
    }
  }

  /** Going down to a multiple of 4 from the top of the page is rounding up what is used. */
  lemma Padded(used: nat)
    requires used < 4096
    ensures (4096 - used) - (4096 - used) % 4 == 4096 - RoundUp(used)
  {
    Aligned(4096 - used, 4096 - RoundUp(used));
  }

  lemma FourDivides(r: nat, n: nat)
    requires r % 4 == 0
    ensures (4096 - (r + 4 * (n + 1) + 12)) % 4 == 0
  {
  }

  lemma Aligned(x: nat, y: int)
    requires y <= x < y + 4 && y % 4 == 0
    ensures x - x % 4 == y
  {
  }

  /** Between two calls of `strtok_r`: `args` is word k, if there is one, and the words after it are to come. */
  ghost predicate Scanning(b: seq<byte>, args: Option<nat>, save: nat, rest: seq<byte>, all: seq<seq<byte>>, k: nat) {
    && Uncut(b, save, rest) && k <= |all|
    && (args.None? <==> k == |all|)
    && (args.Some? ==> StringAt(b, args.value, all[k]) && Words(rest, SPACE) == all[k + 1..])
  }

  method NextWord(fnCopy: array<byte>, save0: nat, ghost rest0: seq<byte>, ghost all: seq<seq<byte>>, ghost k: nat)
    returns (args: Option<nat>, save: nat, ghost rest: seq<byte>)
    requires Uncut(fnCopy[..], save0, rest0) && k <= |all| && Words(rest0, SPACE) == all[k..]
    modifies fnCopy
    ensures Scanning(fnCopy[..], args, save, rest, all, k)
  {
    args, save, rest := StrtokR(fnCopy, SPACE, save0, rest0);
    assert k < |all| ==> all[k..][0] == all[k] && all[k..][1..] == all[k + 1..];
  }

  lemma {:induction false} SizeNext(words: seq<seq<byte>>, k: nat)
    requires k < |words|
    ensures Size(words[..k + 1]) == Size(words[..k]) + |words[k]| + 1
    ensures Size(words[..k + 1]) <= Size(words)
    decreases |words|
  {
    assert words[..k + 1][..k] == words[..k];
    if k + 1 < |words| {
      var front := words[..|words| - 1];
      SizeNext(front, k);
      assert front[..k + 1] == words[..k + 1];
    } else {
      assert words[..k + 1] == words;
    }
  }
}
