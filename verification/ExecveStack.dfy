/** The first stack of a program: clone_param_array, copy_param_array_to_user and the
    stack-building part of do_execve in source/kernel/src/loader.c.

    Strings, pointer arrays and start-up words are stored downwards in flat memory. The
    reader follows addresses upwards from the saved stack pointer and knows no layout. */
module ExecveStack {
  import opened Options
  import opened Bytes

  const TLD_BYTES := 4096
  const USER_STACK_BYTES := 262144

  /** A C string, without its terminator. */
  type CString = s: seq<byte> | 0 !in s witness []

  // ---------------------------------------------------------------------------------------
  // Reading memory: mem is what is stored from address base on

  ghost predicate Stored(mem: seq<byte>, base: nat, address: nat, s: seq<byte>) {
    base <= address && Holds(mem, address - base, s)
  }

  ghost predicate WordAt(mem: seq<byte>, base: nat, address: nat, n: nat) {
    n < TWO_32 && Stored(mem, base, address, Int32(n))
  }

  ghost predicate StringAt(mem: seq<byte>, base: nat, address: nat, s: CString) {
    Stored(mem, base, address, s + [0])
  }

  /** At address there is a null-terminated array of pointers to exactly these strings. */
  ghost predicate ArrayAt(mem: seq<byte>, base: nat, address: nat, args: seq<CString>) {
    && (forall i :: 0 <= i < |args| ==> PointerAt(mem, base, address + 4 * i, args[i]))
    && WordAt(mem, base, address + 4 * |args|, 0)
  }

  ghost predicate PointerAt(mem: seq<byte>, base: nat, address: nat, s: CString) {
    exists p :: p != 0 && WordAt(mem, base, address, p) && StringAt(mem, base, p, s)
  }

  /** Memory determines what a reader finds. */
  lemma WordUnique(mem: seq<byte>, base: nat, address: nat, m: nat, n: nat)
    requires WordAt(mem, base, address, m) && WordAt(mem, base, address, n)
    ensures m == n
  {
    FieldWidths();
    LittleEndianRoundTrip(m, WIDTH_32);
    LittleEndianRoundTrip(n, WIDTH_32);
  }

  /** A string's bytes are not 0, and a 0 follows them. */
  lemma StringBytes(mem: seq<byte>, base: nat, address: nat, s: CString, j: nat)
    requires StringAt(mem, base, address, s) && j <= |s|
    ensures address - base + j < |mem| && (mem[address - base + j] == 0 <==> j == |s|)
  {
    var a := address - base;
    assert mem[a..a + |s + [0]|][j] == mem[a + j] == (s + [0])[j];
    assert j < |s| ==> (s + [0])[j] == s[j] && s[j] in s;
  }

  lemma NotLonger(mem: seq<byte>, base: nat, address: nat, s: CString, t: CString)
    requires StringAt(mem, base, address, s) && StringAt(mem, base, address, t)
    ensures |t| <= |s|
  {
    hide StringAt;
    StringBytes(mem, base, address, s, |s|);
    if |s| < |t| {
      StringBytes(mem, base, address, t, |s|);
    }
  }

  lemma StringUnique(mem: seq<byte>, base: nat, address: nat, s: CString, t: CString)
    requires StringAt(mem, base, address, s) && StringAt(mem, base, address, t)
    ensures s == t
  {
    NotLonger(mem, base, address, s, t);
    NotLonger(mem, base, address, t, s);
    assert s == (s + [0])[..|s|] && t == (t + [0])[..|t|];
  }

  lemma ArrayUnique(mem: seq<byte>, base: nat, address: nat, a: seq<CString>, b: seq<CString>)
    requires ArrayAt(mem, base, address, a) && ArrayAt(mem, base, address, b)
    ensures a == b
  {
    if |a| != |b| {
      var short, long := if |a| < |b| then a else b, if |a| < |b| then b else a;
      var at := address + 4 * |short|;
      assert PointerAt(mem, base, at, long[|short|]);
      var p :| p != 0 && WordAt(mem, base, at, p) && StringAt(mem, base, p, long[|short|]);
      WordUnique(mem, base, at, p, 0);
    } else {
      forall i | 0 <= i < |a| ensures a[i] == b[i] {
        var p :| p != 0 && WordAt(mem, base, address + 4 * i, p) && StringAt(mem, base, p, a[i]);
        var q :| q != 0 && WordAt(mem, base, address + 4 * i, q) && StringAt(mem, base, q, b[i]);
        WordUnique(mem, base, address + 4 * i, p, q);
        StringUnique(mem, base, p, a[i], b[i]);
      }
    }
  }

  // ---------------------------------------------------------------------------------------
  // The layout

  /** The first i strings, stored one below the other. */
  function Strings(args: seq<CString>, i: nat): seq<byte>
    requires i <= |args|
  {
    if i == 0 then [] else args[i - 1] + [0] + Strings(args, i - 1)
  }

  /** user_array: the address of each of the first i strings, when they end at top. */
  function Addresses(args: seq<CString>, i: nat, top: nat): (a: seq<nat>)
    requires i <= |args| && |Strings(args, i)| < top
    ensures |a| == i
  {
    if i == 0 then [] else Addresses(args, i - 1, top) + [top - |Strings(args, i)|]
  }

  /** An array of words. */
  function Words(a: seq<nat>, i: nat): (s: seq<byte>)
    requires i <= |a|
    ensures |s| == 4 * i
  {
    if i == 0 then [] else Words(a, i - 1) + Int32(a[i - 1])
  }

  function Sum(argv: seq<CString>, envp: seq<CString>): (n: nat)
    ensures |Strings(argv, |argv|)| + |Strings(envp, |envp|)| + 4 * (|argv| + 1) + 4 * (|envp| + 1) < n
  {
    |Strings(argv, |argv|)| + |Strings(envp, |envp|)| + 4 * (|argv| + 1) + 4 * (|envp| + 1) + 16
  }

  /** The pointer arrays and the strings they point to, when the strings end at top. */
  function Arrays(args: seq<CString>, envs: seq<CString>, top: nat): (s: seq<byte>)
    requires |Strings(args, |args|)| + |Strings(envs, |envs|)| < top
    ensures |s| + 16 == Sum(args, envs)
  {
    var middle := top - |Strings(args, |args|)|;
    Words(Addresses(envs, |envs|, middle) + [0], |envs| + 1)
    + (Words(Addresses(args, |args|, top) + [0], |args| + 1)
       + (Strings(envs, |envs|) + Strings(args, |args|)))
  }

  function Start(argvAddress: nat, envpAddress: nat, ctorList: nat, ctorCount: nat): (s: seq<byte>)
    ensures |s| == 16
  {
    Int32(argvAddress) + (Int32(envpAddress) + (Int32(ctorCount) + Int32(ctorList)))
  }

  // ---------------------------------------------------------------------------------------
  // The stack under construction

  class Stack {
    const base: nat
    var mem: seq<byte>
    /** The stack pointer of do_execve. */
    var stack: nat

    constructor (base: nat, mem: seq<byte>)
      ensures this.base == base && this.mem == mem && stack == base + |mem|
    {
      this.base := base;
      this.mem := mem;
      stack := base + |mem|;
    }

    ghost predicate Valid()
      reads this
    {
      base <= stack <= base + |mem|
    }

    /** stack -= n followed by a store of n bytes there. */
    method Push(s: seq<byte>)
      requires Valid() && |s| <= stack - base
      modifies this`mem, this`stack
      ensures Valid() && stack == old(stack) - |s|
      ensures Pushed(old(mem), old(stack) - base, s, mem)
    {
      var at := stack - base - |s|;
      mem := mem[..at] + s + mem[at + |s|..];
      stack := stack - |s|;
    }

    /** copy_param_array_to_user */
    method CopyStrings(args: seq<CString>) returns (addresses: seq<nat>)
      requires Valid() && |Strings(args, |args|)| <= stack - base && base > 0
      modifies this`mem, this`stack
      ensures Valid() && stack == old(stack) - |Strings(args, |args|)|
      ensures Pushed(old(mem), old(stack) - base, Strings(args, |args|), mem)
      ensures addresses == Addresses(args, |args|, old(stack))
    {
      hide Strings, Addresses, Pushed;
      StringsStart(args, old(stack));
      PushedNothing(mem, stack - base);
      addresses := [];
      for i := 0 to |args|
        invariant Valid() && stack + |Strings(args, i)| == old(stack)
        invariant Pushed(old(mem), old(stack) - base, Strings(args, i), mem)
        invariant addresses == Addresses(args, i, old(stack))
      {
        StringsGrow(args, i + 1, |args|);
        StringsStep(args, i, old(stack));
        ghost var before := mem;
        Push(args[i] + [0]);
        PushedTwice(old(mem), old(stack) - base, Strings(args, i), before, args[i] + [0], mem);
        addresses := addresses + [stack];
      }
    }

    /** Both string arrays, then both pointer arrays. */
    method PushArrays(args: seq<CString>, envs: seq<CString>) returns (argvAddress: nat, envpAddress: nat)
      requires Valid() && base > 0 && Sum(args, envs) <= stack - base
      modifies this`mem, this`stack
      ensures Valid() && stack == old(stack) - |Arrays(args, envs, old(stack))|
      ensures envpAddress == stack && argvAddress == stack + 4 * (|envs| + 1)
      ensures Pushed(old(mem), old(stack) - base, Arrays(args, envs, old(stack)), mem)
    {
      hide Strings, Addresses, Pushed, Words;
      ghost var m0, at := mem, stack - base;
      var userArgv := CopyStrings(args);
      ghost var m1, a := mem, Strings(args, |args|);
      var userEnvv := CopyStrings(envs);
      ghost var m2, e := mem, Strings(envs, |envs|);
      PushedTwice(m0, at, a, m1, e, m2);
      Push(Words(userArgv + [0], |args| + 1));
      argvAddress := stack;
      ghost var m3, v := mem, Words(userArgv + [0], |args| + 1);
      PushedTwice(m0, at, e + a, m2, v, m3);
      Push(Words(userEnvv + [0], |envs| + 1));
      envpAddress := stack;
      PushedTwice(m0, at, v + (e + a), m3, Words(userEnvv + [0], |envs| + 1), mem);
    }

    /** The four words that the start-up code finds. */
    method PushStart(argvAddress: nat, envpAddress: nat, ctorList: nat, ctorCount: nat)
      requires Valid() && 16 <= stack - base
      modifies this`mem, this`stack
      ensures Valid() && stack == old(stack) - 16
      ensures Pushed(old(mem), old(stack) - base, Start(argvAddress, envpAddress, ctorList, ctorCount), mem)
    {
      hide Int32, Pushed;
      ghost var m0, at := mem, stack - base;
      var list, count, envp, argv := Int32(ctorList), Int32(ctorCount), Int32(envpAddress), Int32(argvAddress);
      Push(list);
      ghost var m1 := mem;
      Push(count);
      ghost var m2 := mem;
      PushedTwice(m0, at, list, m1, count, m2);
      Push(envp);
      ghost var m3 := mem;
      PushedTwice(m0, at, count + list, m2, envp, m3);
      Push(argv);
      PushedTwice(m0, at, envp + (count + list), m3, argv, mem);
    }

    /** The stack-building part of do_execve. The four words at the stack pointer are found
        where the start-up code looks for them; following the first two gives back exactly
        the argument and environment strings. The words, the two arrays and the strings tile the
        bytes between the stack pointer and the thread-local data, which, like the rest of
        the memory, is not touched. Nothing checks that this stays inside the stack: mem is all
        the memory from base to the end of the stack, and the last clause says exactly when the
        stack pointer ends below the region that was created for it. */
    method Build(argv: Option<seq<CString>>, envp: Option<seq<CString>>, ctorList: nat, ctorCount: nat)
      returns (argvAddress: nat, envpAddress: nat)
      requires Valid() && stack == base + |mem| && 0 < base && base + |mem| <= TWO_32
      requires TLD_BYTES + Sum(Cloned(argv), Cloned(envp)) <= |mem|
      requires ctorList < TWO_32 && ctorCount < TWO_32
      modifies this
      ensures Valid() && |mem| == |old(mem)| && stack == base + |mem| - TLD_BYTES - Sum(Cloned(argv), Cloned(envp))
      ensures WordAt(mem, base, stack, argvAddress) && ArrayAt(mem, base, argvAddress, Cloned(argv))
      ensures WordAt(mem, base, stack + 4, envpAddress) && ArrayAt(mem, base, envpAddress, Cloned(envp))
      ensures WordAt(mem, base, stack + 8, ctorCount) && WordAt(mem, base, stack + 12, ctorList)
      ensures mem[stack - base..|mem| - TLD_BYTES]
           == Start(argvAddress, envpAddress, ctorList, ctorCount)
              + Arrays(Cloned(argv), Cloned(envp), base + |mem| - TLD_BYTES)
      ensures mem[|mem| - TLD_BYTES..] == old(mem)[|mem| - TLD_BYTES..]
      ensures mem[..stack - base] == old(mem)[..stack - base]
      ensures stack >= base + |mem| - USER_STACK_BYTES <==>
              TLD_BYTES + Sum(Cloned(argv), Cloned(envp)) <= USER_STACK_BYTES
    {
      hide Strings, Arrays, Start, Sum, ArrayAt, WordAt, Pushed, Stored;
      stack := stack - TLD_BYTES;
      ghost var m0, top, at := mem, stack, |mem| - TLD_BYTES;
      argvAddress, envpAddress := PushArrays(Cloned(argv), Cloned(envp));
      ghost var m1, arrays := mem, Arrays(Cloned(argv), Cloned(envp), top);
      PushStart(argvAddress, envpAddress, ctorList, ctorCount);
      ghost var start := Start(argvAddress, envpAddress, ctorList, ctorCount);
      PushedTwice(m0, at, arrays, m1, start, mem);
      PushedStored(m0, base, at, start + arrays, mem);
      assert stack - base == at - |start + arrays|;
      LayoutReads(mem, base, stack, argvAddress, envpAddress, ctorList, ctorCount, Cloned(argv), Cloned(envp), top);
    }
  }

  // ---------------------------------------------------------------------------------------
  // Pushes

  /** Storing s just below index at gave after: nothing else changed. */
  ghost predicate Pushed(before: seq<byte>, at: int, s: seq<byte>, after: seq<byte>) {
    |s| <= at <= |before| && after == before[..at - |s|] + s + before[at..]
  }

  lemma PushedNothing(m: seq<byte>, at: int)
    requires 0 <= at <= |m|
    ensures Pushed(m, at, [], m)
  {
    assert m == m[..at] + [] + m[at..];
  }

  lemma PushedTwice(m0: seq<byte>, at: int, s: seq<byte>, m1: seq<byte>, t: seq<byte>, m2: seq<byte>)
    requires Pushed(m0, at, s, m1) && Pushed(m1, at - |s|, t, m2)
    ensures Pushed(m0, at, t + s, m2)
  {
    var low := at - |s| - |t|;
    assert m1[..low] == m0[..low];
    assert m1[at - |s|..] == s + m0[at..];
    assert m0[..low] + t + (s + m0[at..]) == m0[..low] + (t + s) + m0[at..];
  }

  /** What a push just below index at stored and what it left. */
  lemma PushedStored(before: seq<byte>, base: nat, at: nat, s: seq<byte>, after: seq<byte>)
    requires Pushed(before, at, s, after)
    ensures |s| <= at && |after| == |before| && Stored(after, base, base + at - |s|, s)
    ensures after[at - |s|..at] == s
    ensures after[..at - |s|] == before[..at - |s|]
    ensures after[at..] == before[at..]
  {
  }

  /** clone_param_array: a missing array is an empty one. */
  function Cloned(args: Option<seq<CString>>): seq<CString> {
    match args
    case None => []
    case Some(list) => list
  }

  lemma Peel(mem: seq<byte>, base: nat, address: nat, s: seq<byte>, t: seq<byte>)
    requires Stored(mem, base, address, s + t)
    ensures Stored(mem, base, address, s) && Stored(mem, base, address + |s|, t)
  {
    hide Holds;
    HoldsSplit(mem, address - base, s, t);
  }

  lemma {:induction false} WordsStored(mem: seq<byte>, base: nat, address: nat, a: seq<nat>, n: nat, i: nat)
    requires i < n <= |a| && Stored(mem, base, address, Words(a, n))
    ensures Stored(mem, base, address + 4 * i, Int32(a[i]))
    decreases n
  {
    hide Holds, Int32;
    Peel(mem, base, address, Words(a, n - 1), Int32(a[n - 1]));
    if i < n - 1 {
      WordsStored(mem, base, address, a, n - 1, i);
    }
  }

  lemma {:induction false} StringsStored(mem: seq<byte>, base: nat, args: seq<CString>, n: nat, top: nat, i: nat)
    requires i < n <= |args| && |Strings(args, n)| < top
    requires Stored(mem, base, top - |Strings(args, n)|, Strings(args, n))
    ensures |Strings(args, n)| > 0
    ensures Addresses(args, n, top)[i] < top && StringAt(mem, base, Addresses(args, n, top)[i], args[i])
    ensures top - |Strings(args, n)| <= Addresses(args, n, top)[i]
    decreases n
  {
    hide Holds;
    Peel(mem, base, top - |Strings(args, n)|, args[n - 1] + [0], Strings(args, n - 1));
    if i < n - 1 {
      StringsStored(mem, base, args, n - 1, top, i);
    }
  }

  /** The pointers and the strings together are an array that reads back. */
  lemma ArrayStored(mem: seq<byte>, base: nat, address: nat, args: seq<CString>, top: nat)
    requires |Strings(args, |args|)| < top <= TWO_32 && 0 < base <= top - |Strings(args, |args|)|
    requires Stored(mem, base, top - |Strings(args, |args|)|, Strings(args, |args|))
    requires Stored(mem, base, address, Words(Addresses(args, |args|, top) + [0], |args| + 1))
    ensures ArrayAt(mem, base, address, args)
  {
    hide Holds, Strings, Words, Addresses, Int32;
    var a := Addresses(args, |args|, top) + [0];
    forall i | 0 <= i < |args| ensures PointerAt(mem, base, address + 4 * i, args[i]) {
      WordsStored(mem, base, address, a, |args| + 1, i);
      StringsStored(mem, base, args, |args|, top, i);
      assert WordAt(mem, base, address + 4 * i, a[i]);
    }
    WordsStored(mem, base, address, a, |args| + 1, |args|);
  }

  lemma StartStored(mem: seq<byte>, base: nat, address: nat, argv: nat, envp: nat, list: nat, count: nat)
    requires argv < TWO_32 && envp < TWO_32 && list < TWO_32 && count < TWO_32
    requires Stored(mem, base, address, Start(argv, envp, list, count))
    ensures WordAt(mem, base, address, argv) && WordAt(mem, base, address + 4, envp)
    ensures WordAt(mem, base, address + 8, count) && WordAt(mem, base, address + 12, list)
  {
    hide Stored, Int32;
    Peel(mem, base, address, Int32(argv), Int32(envp) + (Int32(count) + Int32(list)));
    Peel(mem, base, address + 4, Int32(envp), Int32(count) + Int32(list));
    Peel(mem, base, address + 8, Int32(count), Int32(list));
  }

  lemma ArraysStored(mem: seq<byte>, base: nat, address: nat, args: seq<CString>, envs: seq<CString>, top: nat)
    requires 0 < base <= address && address + Sum(args, envs) - 16 == top <= TWO_32
    requires Stored(mem, base, address, Arrays(args, envs, top))
    ensures ArrayAt(mem, base, address, envs) && ArrayAt(mem, base, address + 4 * (|envs| + 1), args)
  {
    hide Stored, Strings, Words, Addresses, ArrayAt;
    var a, e := Strings(args, |args|), Strings(envs, |envs|);
    var middle := top - |a|;
    var w := Words(Addresses(envs, |envs|, middle) + [0], |envs| + 1);
    var v := Words(Addresses(args, |args|, top) + [0], |args| + 1);
    Peel(mem, base, address, w, v + (e + a));
    Peel(mem, base, address + |w|, v, e + a);
    Peel(mem, base, address + |w| + |v|, e, a);
    ArrayStored(mem, base, address, envs, middle);
    ArrayStored(mem, base, address + |w|, args, top);
  }

  /** Following addresses from the stack pointer. */
  lemma LayoutReads(mem: seq<byte>, base: nat, stack: nat, argv: nat, envp: nat, list: nat, count: nat,
                    args: seq<CString>, envs: seq<CString>, top: nat)
    requires 0 < base <= stack && stack + Sum(args, envs) == top <= TWO_32 && list < TWO_32 && count < TWO_32
    requires envp == stack + 16 && argv == envp + 4 * (|envs| + 1)
    requires Stored(mem, base, stack, Start(argv, envp, list, count) + Arrays(args, envs, top))
    ensures WordAt(mem, base, stack, argv) && ArrayAt(mem, base, argv, args)
    ensures WordAt(mem, base, stack + 4, envp) && ArrayAt(mem, base, envp, envs)
    ensures WordAt(mem, base, stack + 8, count) && WordAt(mem, base, stack + 12, list)
  {
    hide Strings, Arrays, Start, ArrayAt, WordAt, Stored;
    Peel(mem, base, stack, Start(argv, envp, list, count), Arrays(args, envs, top));
    StartStored(mem, base, stack, argv, envp, list, count);
    ArraysStored(mem, base, stack + 16, args, envs, top);
  }

  lemma StringsStart(args: seq<CString>, top: nat)
    requires 0 < top
    ensures Strings(args, 0) == [] && Addresses(args, 0, top) == []
  {
  }

  lemma StringsStep(args: seq<CString>, i: nat, top: nat)
    requires i < |args| && |Strings(args, i + 1)| < top
    ensures Strings(args, i + 1) == args[i] + [0] + Strings(args, i)
    ensures Addresses(args, i + 1, top) == Addresses(args, i, top) + [top - |Strings(args, i + 1)|]
  {
  }

  lemma {:induction false} StringsGrow(args: seq<CString>, i: nat, n: nat)
    requires i <= n <= |args|
    ensures |Strings(args, i)| <= |Strings(args, n)|
    decreases n
  {
    if i < n {
      StringsGrow(args, i, n - 1);
    }
  }

  /** One argument as long as the stack does not fit it. */
  lemma LongArgument()
    ensures exists s: CString :: |s| == USER_STACK_BYTES && TLD_BYTES + Sum([s], []) > USER_STACK_BYTES
  {
    var s: CString := seq(USER_STACK_BYTES, _ => 97);
    var args := [s];
    assert Strings(args, 0) == [];
    assert Strings(args, 1) == s + [0] + [];
  }
}
