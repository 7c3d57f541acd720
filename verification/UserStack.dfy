/** The initial user stack (src/proc/scheduler.c:183-187, 239-331) and a reader that follows section
    3.4.1 of the System V ABI, AMD64 supplement. */
module UserStack {
  import opened Common
  import opened Bytes

  type Text = seq<Byte>

  datatype Aux = Aux(kind: nat, value: nat)

  predicate IsText(s: Text) {
    forall i :: 0 <= i < |s| ==> s[i] != 0
  }

  /** The strings as they lie below the top of the stack: the first one highest, each with its
      terminator. */
  function Packed(texts: seq<Text>): seq<Byte> {
    if texts == [] then [] else texts[|texts| - 1] + [0] + Packed(texts[..|texts| - 1])
  }

  /** The first strings lie highest, whatever follows them. */
  lemma {:induction false} PackedSuffix(texts: seq<Text>, k: nat)
    requires k <= |texts|
    ensures var p, q := Packed(texts), Packed(texts[..k]); |q| <= |p| && p[|p| - |q|..] == q
  {
    if k == |texts| {
      assert texts[..k] == texts;
    } else {
      var init := texts[..|texts| - 1];
      PackedSuffix(init, k);
      assert init[..k] == texts[..k];
    }
  }

  /** How far below the top string `i` begins. */
  function Offset(texts: seq<Text>, i: nat): (o: nat)
    requires i < |texts|
    ensures 1 <= o <= |Packed(texts)|
  {
    PackedSuffix(texts, i + 1);
    |Packed(texts[..i + 1])|
  }

  lemma PackedNext(texts: seq<Text>, i: nat)
    requires i < |texts|
    ensures Packed(texts[..i + 1]) == texts[i] + [0] + Packed(texts[..i])
    ensures Offset(texts, i) == |Packed(texts[..i + 1])|
  {
    assert texts[..i + 1][..i] == texts[..i];
  }

  /** The strings tile the space below the top: no two overlap and none leaves it. */
  lemma OffsetsTile(texts: seq<Text>, i: nat)
    requires i < |texts|
    ensures Offset(texts, i) == (if i == 0 then 0 else Offset(texts, i - 1)) + |texts[i]| + 1
  {
    PackedNext(texts, i);
    assert i == 0 ==> texts[..i] == [];
  }

  /** The user's addresses of the strings, when the top of the stack is at `rsp`. */
  function Pointers(rsp: nat, texts: seq<Text>): seq<nat>
    requires |Packed(texts)| <= rsp
  {
    seq(|texts|, i requires 0 <= i < |texts| => rsp - Offset(texts, i))
  }

  function Flat(auxv: seq<Aux>): (f: seq<nat>)
    ensures |f| == 2 * |auxv|
  {
    if auxv == [] then [] else [auxv[0].kind, auxv[0].value] + Flat(auxv[1..])
  }

  /** One more zero when the number of strings is odd. */
  function Zeros(strings: nat): (z: seq<nat>)
    ensures |z| == 1 + strings % 2 && z[0] == 0
  {
    if strings % 2 == 1 then [0, 0] else [0]
  }

  /** The words of the stack, lowest address first. */
  function Words(rsp: nat, argv: seq<Text>, envp: seq<Text>, auxv: seq<Aux>): (w: seq<nat>)
    requires |Packed(argv + envp)| <= rsp
    ensures |w| == 4 + |argv| + |envp| + 2 * |auxv| + (|argv| + |envp|) % 2
  {
    var p := Pointers(rsp, argv + envp);
    [|argv|] + p[..|argv|] + [0] + p[|argv|..] + [0] + Flat(auxv) + Zeros(|argv| + |envp|)
  }

  function WordBytes(w: seq<nat>): (b: seq<Byte>)
    ensures |b| == 8 * |w|
  {
    if w == [] then [] else Encode(w[0], 8) + WordBytes(w[1..])
  }

  // The reader.

  function WordAt(m: seq<Byte>, i: nat): nat
    requires i + 8 <= |m|
  {
    Decode(m[i..i + 8])
  }

  function TextAt(m: seq<Byte>, i: nat): Text
    decreases |m| - i
  {
    if i >= |m| || m[i] == 0 then [] else [m[i]] + TextAt(m, i + 1)
  }

  /** The words from `i` on, up to a zero. */
  function UntilNull(m: seq<Byte>, i: nat): seq<nat>
    decreases |m| - i
  {
    if i + 8 > |m| || WordAt(m, i) == 0 then [] else [WordAt(m, i)] + UntilNull(m, i + 8)
  }

  function AuxUntilNull(m: seq<Byte>, i: nat): seq<Aux>
    decreases |m| - i
  {
    if i + 16 > |m| || WordAt(m, i) == 0 then [] else [Aux(WordAt(m, i), WordAt(m, i + 8))] + AuxUntilNull(m, i + 16)
  }

  function Texts(m: seq<Byte>, base: nat, pointers: seq<nat>): seq<Text> {
    seq(|pointers|, i requires 0 <= i < |pointers| => if pointers[i] >= base then TextAt(m, pointers[i] - base) else [])
  }

  datatype Startup = Startup(argv: seq<Text>, envp: seq<Text>, auxv: seq<Aux>)

  /** What a program finds at its stack pointer: argc, that many pointers and a null, environment
      pointers up to a null, auxiliary pairs up to a null type. `m` is the memory from user address
      `base` on. */
  function ReadStack(m: seq<Byte>, base: nat, sp: nat): Option<Startup>
    requires base <= sp
  {
    var i := sp - base;
    if i + 8 > |m| then None else
      var argc := WordAt(m, i);
      if i + 8 + 8 * argc > |m| then None else
        var args := seq(argc, k requires 0 <= k < argc => WordAt(m, i + 8 + 8 * k));
        var envs := UntilNull(m, i + 8 * (argc + 2));
        Some(Startup(Texts(m, base, args), Texts(m, base, envs), AuxUntilNull(m, i + 8 * (argc + |envs| + 3))))
  }

  /** Memory holds the words `w` from `i` on. */
  ghost predicate HasWords(m: seq<Byte>, i: nat, w: seq<nat>) {
    i + 8 * |w| <= |m| && forall k :: 0 <= k < |w| ==> WordAt(m, i + 8 * k) == w[k]
  }

  predicate SmallWords(w: seq<nat>) {
    forall k :: 0 <= k < |w| ==> w[k] < 0x1_0000_0000_0000_0000
  }

  lemma FirstWord(a: seq<Byte>, x: nat, rest: seq<Byte>)
    requires x < 0x1_0000_0000_0000_0000
    ensures WordAt(a + Encode(x, 8) + rest, |a|) == x
  {
    hide Encode, Decode;
    var m := a + Encode(x, 8) + rest;
    assert m[|a|..|a| + 8] == Encode(x, 8);
    WordRoundTrip(x);
  }

  lemma HasWordsCons(m: seq<Byte>, i: nat, w: seq<nat>)
    requires w != [] && i + 8 <= |m| && WordAt(m, i) == w[0] && HasWords(m, i + 8, w[1..])
    ensures HasWords(m, i, w)
  {
    hide WordAt;
    forall k | 0 <= k < |w| ensures WordAt(m, i + 8 * k) == w[k] {
      if k > 0 {
        assert WordAt(m, i + 8 + 8 * (k - 1)) == w[1..][k - 1];
        assert i + 8 + 8 * (k - 1) == i + 8 * k;
      }
    }
  }

  lemma {:induction false} WordBytesHold(a: seq<Byte>, w: seq<nat>, b: seq<Byte>)
    requires SmallWords(w)
    ensures HasWords(a + WordBytes(w) + b, |a|, w)
    decreases |w|
  {
    hide Encode, WordAt, HasWords;
    if w == [] {
      NoWords(a + WordBytes(w) + b, |a|);
    } else {
      var m, rest := a + WordBytes(w) + b, WordBytes(w[1..]) + b;
      var a' := a + Encode(w[0], 8);
      WordBytesHold(a', w[1..], b);
      assert a' + WordBytes(w[1..]) + b == m;
      assert a + Encode(w[0], 8) + rest == m;
      FirstWord(a, w[0], rest);
      HasWordsCons(m, |a|, w);
    }
  }

  lemma NoWords(m: seq<Byte>, i: nat)
    requires i <= |m|
    ensures HasWords(m, i, [])
  {
  }

  lemma HasWordsSplit(m: seq<Byte>, i: nat, v: seq<nat>, w: seq<nat>)
    requires HasWords(m, i, v + w)
    ensures HasWords(m, i, v) && HasWords(m, i + 8 * |v|, w)
  {
    forall k | 0 <= k < |v| ensures WordAt(m, i + 8 * k) == v[k] {
      assert (v + w)[k] == v[k];
    }
    forall k | 0 <= k < |w| ensures WordAt(m, i + 8 * |v| + 8 * k) == w[k] {
      assert (v + w)[|v| + k] == w[k];
      assert i + 8 * |v| + 8 * k == i + 8 * (|v| + k);
    }
  }

  lemma {:induction false} UntilNullReads(m: seq<Byte>, i: nat, w: seq<nat>)
    requires HasWords(m, i, w + [0]) && forall k :: 0 <= k < |w| ==> w[k] != 0
    ensures UntilNull(m, i) == w
    decreases |w|
  {
    assert WordAt(m, i + 8 * 0) == (w + [0])[0];
    if w != [] {
      assert w + [0] == [w[0]] + (w[1..] + [0]);
      HasWordsSplit(m, i, [w[0]], w[1..] + [0]);
      UntilNullReads(m, i + 8, w[1..]);
    }
  }

  lemma {:induction false} AuxReads(m: seq<Byte>, i: nat, auxv: seq<Aux>)
    requires HasWords(m, i, Flat(auxv) + [0]) && forall k :: 0 <= k < |auxv| ==> auxv[k].kind != 0
    ensures AuxUntilNull(m, i) == auxv
    decreases |auxv|
  {
    var w := Flat(auxv) + [0];
    assert WordAt(m, i + 8 * 0) == w[0];
    if auxv != [] {
      assert WordAt(m, i + 8 * 1) == w[1];
      assert w == [auxv[0].kind, auxv[0].value] + (Flat(auxv[1..]) + [0]);
      HasWordsSplit(m, i, [auxv[0].kind, auxv[0].value], Flat(auxv[1..]) + [0]);
      AuxReads(m, i + 16, auxv[1..]);
    }
  }

  lemma {:induction false} TextReads(a: seq<Byte>, s: Text, b: seq<Byte>)
    requires IsText(s)
    ensures TextAt(a + s + [0] + b, |a|) == s
    decreases |s|
  {
    if s != [] {
      TextReads(a + [s[0]], s[1..], b);
      assert a + [s[0]] + s[1..] + [0] + b == a + s + [0] + b;
    }
  }

  /** Every string is where its pointer says. */
  lemma PointersRead(a: seq<Byte>, texts: seq<Text>, i: nat)
    requires i < |texts| && IsText(texts[i])
    ensures var m := a + Packed(texts); TextAt(m, |m| - Offset(texts, i)) == texts[i]
  {
    hide Packed, TextAt;
    var m, p, q := a + Packed(texts), Packed(texts), Packed(texts[..i + 1]);
    PackedSuffix(texts, i + 1);
    PackedNext(texts, i);
    var front, rest := a + p[..|p| - |q|], Packed(texts[..i]);
    assert p == p[..|p| - |q|] + q;
    assert m == front + texts[i] + [0] + rest;
    TextReads(front, texts[i], rest);
  }

  /** Memory as the builder leaves it: `below` untouched, the words, a gap, the strings. */
  function Image(below: seq<Byte>, gap: seq<Byte>, rsp: nat, argv: seq<Text>, envp: seq<Text>,
                 auxv: seq<Aux>): seq<Byte>
    requires |Packed(argv + envp)| <= rsp
  {
    below + WordBytes(Words(rsp, argv, envp, auxv)) + gap + Packed(argv + envp)
  }

  /** A program can be handed these: C strings, pairs with a type, everything in 64 bits. */
  ghost predicate Passable(rsp: nat, argv: seq<Text>, envp: seq<Text>, auxv: seq<Aux>) {
    && (forall i :: 0 <= i < |argv| ==> IsText(argv[i])) && (forall i :: 0 <= i < |envp| ==> IsText(envp[i]))
    && (forall i :: 0 <= i < |auxv| ==>
        0 < auxv[i].kind < 0x1_0000_0000_0000_0000 && auxv[i].value < 0x1_0000_0000_0000_0000)
    && |Packed(argv + envp)| < rsp < 0x1_0000_0000_0000_0000 && |argv| < 0x1_0000_0000_0000_0000
  }

  /** The encoding is faithful: the reader gets back exactly the lists and strings. */
  lemma ReadsBack(below: seq<Byte>, gap: seq<Byte>, rsp: nat, argv: seq<Text>, envp: seq<Text>, auxv: seq<Aux>)
    requires Passable(rsp, argv, envp, auxv) && |Image(below, gap, rsp, argv, envp, auxv)| <= rsp
    ensures var m := Image(below, gap, rsp, argv, envp, auxv);
            ReadStack(m, rsp - |m|, rsp - |m| + |below|) == Some(Startup(argv, envp, auxv))
  {
    hide Words, Packed, Flat, WordBytes, WordAt, TextAt, UntilNull, AuxUntilNull;
    var m, w, texts := Image(below, gap, rsp, argv, envp, auxv), Words(rsp, argv, envp, auxv), argv + envp;
    var base, i := rsp - |m|, |below|;
    WordsSmall(rsp, argv, envp, auxv);
    WordBytesHold(below, w, gap + Packed(texts));
    assert below + WordBytes(w) + (gap + Packed(texts)) == m;
    WordsRead(m, i, rsp, argv, envp, auxv);
    var p := Pointers(rsp, texts);
    var front := below + WordBytes(w) + gap;
    assert m == front + Packed(texts);
    forall k | 0 <= k < |texts| ensures p[k] >= base && TextAt(m, p[k] - base) == texts[k] {
      assert IsText(texts[k]);
      PointersRead(front, texts, k);
    }
    assert seq(|argv|, k requires 0 <= k < |argv| => WordAt(m, i + 8 + 8 * k)) == p[..|argv|];
    assert Texts(m, base, p[..|argv|]) == argv;
    assert Texts(m, base, p[|argv|..]) == envp;
  }

  lemma WordsSmall(rsp: nat, argv: seq<Text>, envp: seq<Text>, auxv: seq<Aux>)
    requires Passable(rsp, argv, envp, auxv)
    ensures SmallWords(Words(rsp, argv, envp, auxv))
  {
    hide Packed, Offset;
    FlatSmall(auxv);
  }

  lemma {:induction false} FlatSmall(auxv: seq<Aux>)
    requires forall i :: 0 <= i < |auxv| ==>
            0 < auxv[i].kind < 0x1_0000_0000_0000_0000 && auxv[i].value < 0x1_0000_0000_0000_0000
    ensures SmallWords(Flat(auxv))
  {
    if auxv != [] {
      FlatSmall(auxv[1..]);
    }
  }

  lemma HasWordsAt(m: seq<Byte>, i: nat, w: seq<nat>, k: nat)
    requires HasWords(m, i, w) && k < |w|
    ensures i + 8 * |w| <= |m| && WordAt(m, i + 8 * k) == w[k]
  {
  }

  /** The reader's walk over the words: the arguments, then the rest. */
  lemma WordsRead(m: seq<Byte>, i: nat, rsp: nat, argv: seq<Text>, envp: seq<Text>, auxv: seq<Aux>)
    requires Passable(rsp, argv, envp, auxv) && HasWords(m, i, Words(rsp, argv, envp, auxv))
    ensures var p, argc := Pointers(rsp, argv + envp), |argv|;
            && i + 8 + 8 * argc <= |m| && WordAt(m, i) == argc
            && (forall k :: 0 <= k < argc ==> WordAt(m, i + 8 + 8 * k) == p[k])
            && UntilNull(m, i + 8 * (argc + 2)) == p[argc..]
            && AuxUntilNull(m, i + 8 * (argc + |envp| + 3)) == auxv
  {
    hide Packed, Offset, Flat, UntilNull, AuxUntilNull, WordAt, HasWords, Zeros;
    var p, argc, z := Pointers(rsp, argv + envp), |argv|, Zeros(|argv| + |envp|);
    var head, envs, aux := [argc] + p[..argc] + [0], p[argc..], Flat(auxv) + z;
    assert Words(rsp, argv, envp, auxv) == head + ((envs + [0]) + aux);
    HasWordsSplit(m, i, head, (envs + [0]) + aux);
    HasWordsAt(m, i, head, 0);
    forall k | 0 <= k < argc ensures WordAt(m, i + 8 + 8 * k) == p[k] {
      HasWordsAt(m, i, head, k + 1);
      assert i + 8 * (k + 1) == i + 8 + 8 * k;
    }
    HasWordsSplit(m, i + 8 * (argc + 2), envs + [0], aux);
    AuxTailReads(m, i + 8 * (argc + |envp| + 3), auxv, z);
    UntilNullReads(m, i + 8 * (argc + 2), envs);
  }

  lemma AuxTailReads(m: seq<Byte>, i: nat, auxv: seq<Aux>, z: seq<nat>)
    requires HasWords(m, i, Flat(auxv) + z) && z != [] && z[0] == 0
    requires (forall k :: 0 <= k < |auxv| ==> auxv[k].kind != 0)
    ensures AuxUntilNull(m, i) == auxv
  {
    hide Flat, AuxUntilNull, HasWords;
    var aux := Flat(auxv);
    assert aux + z == (aux + [0]) + z[1..];
    HasWordsSplit(m, i, aux + [0], z[1..]);
    AuxReads(m, i, auxv);
  }

  // The builder. `mem` is the memory below the top of the stack; index `mem.Length` is the top.

  /** strcpy. */
  method CopyText(mem: array<Byte>, at: nat, s: Text)
    requires at + |s| + 1 <= mem.Length
    modifies mem
    ensures mem[..] == old(mem[..at]) + s + [0] + old(mem[at + |s| + 1..])
  {
    var i := 0;
    while i < |s|
      invariant i <= |s| && forall k :: 0 <= k < i ==> mem[at + k] == s[k]
      invariant forall k :: 0 <= k < mem.Length && !(at <= k < at + i) ==> mem[k] == old(mem[k])
    {
      mem[at + i] := s[i];
      i := i + 1;
    }
    mem[at + i] := 0;
  }

  /** push_thread_stack. */
  method PushWord(mem: array<Byte>, sp: nat, v: nat) returns (sp': nat)
    requires 8 <= sp <= mem.Length
    modifies mem
    ensures sp' == sp - 8 && mem[..] == old(mem[..sp - 8]) + Encode(v, 8) + old(mem[sp..])
    ensures mem[sp'..sp] == [v % 0x100, v / 0x100 % 0x100, v / 0x1_0000 % 0x100, v / 0x100_0000 % 0x100,
                             v / 0x1_0000_0000 % 0x100, v / 0x100_0000_0000 % 0x100,
                             v / 0x1_0000_0000_0000 % 0x100, v / 0x100_0000_0000_0000 % 0x100]
  {
    hide Encode;
    LittleEndian(v);
    sp' := sp - 8;
    var b, i := Encode(v, 8), 0;
    while i < 8
      invariant i <= 8 && forall k :: 0 <= k < i ==> mem[sp' + k] == b[k]
      invariant forall k :: 0 <= k < mem.Length && !(sp' <= k < sp) ==> mem[k] == old(mem[k])
    {
      mem[sp' + i] := b[i];
      i := i + 1;
    }
  }

  /** The words `w` have been pushed below `rest`. */
  ghost predicate Stacked(m: seq<Byte>, start: seq<Byte>, sp: nat, w: seq<nat>, rest: seq<Byte>) {
    sp <= |start| && m == start[..sp] + WordBytes(w) + rest
  }

  method Push(mem: array<Byte>, sp: nat, v: nat, ghost start: seq<Byte>, ghost w: seq<nat>,
              ghost rest: seq<Byte>) returns (sp': nat)
    requires 8 <= sp <= mem.Length && Stacked(mem[..], start, sp, w, rest)
    modifies mem
    ensures sp' == sp - 8 && Stacked(mem[..], start, sp', [v] + w, rest)
  {
    hide Stacked;
    ghost var before := mem[..];
    sp' := PushWord(mem, sp, v);
    StackedNext(before, mem[..], start, sp, v, w, rest);
  }

  lemma StackedNext(before: seq<Byte>, after: seq<Byte>, start: seq<Byte>, sp: nat, v: nat, w: seq<nat>,
                    rest: seq<Byte>)
    requires Stacked(before, start, sp, w, rest) && 8 <= sp <= |before|
    requires after == before[..sp - 8] + Encode(v, 8) + before[sp..]
    ensures Stacked(after, start, sp - 8, [v] + w, rest)
  {
    hide Encode;
    var tail := WordBytes(w) + rest;
    assert before == start[..sp] + tail;
    assert before[sp..] == tail && before[..sp - 8] == start[..sp - 8];
    assert WordBytes([v] + w) == Encode(v, 8) + WordBytes(w) by {
      assert ([v] + w)[1..] == w;
    }
    assert after == start[..sp - 8] + WordBytes([v] + w) + rest;
  }

  /** Pushes the auxiliary pairs, last one first, the value above the type. */
  method PushAux(mem: array<Byte>, sp: nat, auxv: seq<Aux>, ghost start: seq<Byte>, ghost w: seq<nat>,
                 ghost rest: seq<Byte>)
    returns (sp': nat)
    requires 16 * |auxv| <= sp <= mem.Length && Stacked(mem[..], start, sp, w, rest)
    modifies mem
    ensures sp' == sp - 16 * |auxv| && Stacked(mem[..], start, sp', Flat(auxv) + w, rest)
  {
    hide Stacked;
    sp' := sp;
    var i := |auxv|;
    assert Flat(auxv[i..]) + w == w;
    while i > 0
      invariant i <= |auxv| && sp' == sp - 16 * (|auxv| - i) && Stacked(mem[..], start, sp', Flat(auxv[i..]) + w, rest)
    {
      i := i - 1;
      ghost var pushed := Flat(auxv[i + 1..]) + w;
      sp' := Push(mem, sp', auxv[i].value, start, pushed, rest);
      sp' := Push(mem, sp', auxv[i].kind, start, [auxv[i].value] + pushed, rest);
      assert auxv[i..][1..] == auxv[i + 1..];
      assert [auxv[i].kind] + ([auxv[i].value] + pushed) == Flat(auxv[i..]) + w;
    }
    assert auxv[0..] == auxv;
  }

  /** Pushes the pointers to strings `from` to `to`, last one first. */
  method PushPointers(mem: array<Byte>, sp: nat, rsp: nat, offsets: array<nat>, from: nat, to: nat,
                      ghost p: seq<nat>, ghost start: seq<Byte>, ghost w: seq<nat>, ghost rest: seq<Byte>)
    returns (sp': nat)
    requires from <= to <= offsets.Length == |p| && mem != offsets as object
    requires forall i :: 0 <= i < |p| ==> offsets[i] <= rsp && p[i] == rsp - offsets[i]
    requires 8 * (to - from) <= sp <= mem.Length && Stacked(mem[..], start, sp, w, rest)
    modifies mem
    ensures sp' == sp - 8 * (to - from) && Stacked(mem[..], start, sp', p[from..to] + w, rest)
  {
    hide Stacked;
    sp' := sp;
    var i := to;
    assert p[i..to] + w == w;
    while i > from
      invariant from <= i <= to && sp' == sp - 8 * (to - i) && Stacked(mem[..], start, sp', p[i..to] + w, rest)
    {
      i := i - 1;
      sp' := Push(mem, sp', rsp - offsets[i], start, p[i + 1..to] + w, rest);
      assert [p[i]] + (p[i + 1..to] + w) == p[i..to] + w;
    }
  }

  /** The first `k` strings have been copied to the end of memory. */
  ghost predicate Copied(m: seq<Byte>, start: seq<Byte>, texts: seq<Text>, k: nat)
    requires k <= |texts|
  {
    |Packed(texts[..k])| <= |start| && m == start[..|start| - |Packed(texts[..k])|] + Packed(texts[..k])
  }

  /** Copies strings `from` to `to`, each below the one before, and notes where they begin. */
  method CopyTexts(mem: array<Byte>, texts: seq<Text>, from: nat, to: nat, total: nat, offsets: array<nat>,
                   ghost start: seq<Byte>)
    returns (total': nat)
    requires from <= to <= |texts| == offsets.Length && |Packed(texts)| <= mem.Length
    requires total == |Packed(texts[..from])|
    requires Copied(mem[..], start, texts, from) && mem != offsets as object
    requires forall i :: 0 <= i < from ==> offsets[i] == Offset(texts, i)
    modifies mem, offsets
    ensures total' == |Packed(texts[..to])| && Copied(mem[..], start, texts, to)
    ensures forall i :: 0 <= i < to ==> offsets[i] == Offset(texts, i)
  {
    hide Packed, Offset, Copied;
    total' := total;
    var i := from;
    while i < to
      invariant from <= i <= to && total' == |Packed(texts[..i])| && Copied(mem[..], start, texts, i)
      invariant forall j :: 0 <= j < i ==> offsets[j] == Offset(texts, j)
    {
      PackedNext(texts, i);
      PackedFits(texts, i + 1);
      ghost var before := mem[..];
      total' := total' + |texts[i]| + 1;
      offsets[i] := total';
      CopyText(mem, mem.Length - offsets[i], texts[i]);
      CopiedNext(before, mem[..], start, texts, i);
      i := i + 1;
    }
  }

  lemma CopiedNext(before: seq<Byte>, after: seq<Byte>, start: seq<Byte>, texts: seq<Text>, i: nat)
    requires i < |texts| && Copied(before, start, texts, i) && |Packed(texts[..i + 1])| <= |before|
    requires Packed(texts[..i + 1]) == texts[i] + [0] + Packed(texts[..i])
    requires var at := |before| - |Packed(texts[..i + 1])|;
             after == before[..at] + texts[i] + [0] + before[at + |texts[i]| + 1..]
    ensures Copied(after, start, texts, i + 1)
  {
    hide Packed;
    var at := |before| - |Packed(texts[..i + 1])|;
    assert before[at + |texts[i]| + 1..] == Packed(texts[..i]);
    assert before[..at] == start[..at];
  }

  lemma PackedFits(texts: seq<Text>, k: nat)
    requires k <= |texts|
    ensures |Packed(texts[..k])| <= |Packed(texts)|
  {
    PackedSuffix(texts, k);
  }

  lemma NothingCopied(start: seq<Byte>, texts: seq<Text>)
    ensures Copied(start, start, texts, 0) && |Packed(texts[..0])| == 0
  {
  }

  lemma NothingPushed(m: seq<Byte>, sp: nat)
    requires sp <= |m|
    ensures Stacked(m, m, sp, [], m[sp..])
  {
  }

  /** How far below the top the words end and the stack pointer comes to lie. */
  function WordsTop(top: nat, argv: seq<Text>, envp: seq<Text>): (h: nat)
    requires |Packed(argv + envp)| <= top
    ensures h >= |Packed(argv + envp)| && top >= h && (top - h) % 16 == 0
  {
    |Packed(argv + envp)| + (top - |Packed(argv + envp)|) % 16
  }

  function Height(top: nat, argv: seq<Text>, envp: seq<Text>, auxv: seq<Aux>): (h: nat)
    requires |Packed(argv + envp)| <= top
    ensures h >= WordsTop(top, argv, envp)
  {
    WordsTop(top, argv, envp) + 8 * (4 + |argv| + |envp| + 2 * |auxv| + (|argv| + |envp|) % 2)
  }

  /** The words come in pairs for every parity of the arguments, so the stack stays aligned. */
  lemma StaysAligned(top: nat, argv: seq<Text>, envp: seq<Text>, auxv: seq<Aux>)
    requires |Packed(argv + envp)| <= top && Height(top, argv, envp, auxv) <= top
    ensures (top - Height(top, argv, envp, auxv)) % 16 == 0
  {
    hide Packed, WordsTop;
    var n, h := |argv| + |envp|, WordsTop(top, argv, envp);
    EvenWords(n, |auxv|);
    var q, half := (top - h) / 16, (4 + n + 2 * |auxv| + n % 2) / 2;
    assert top - h == 16 * q;
    assert top - Height(top, argv, envp, auxv) == 16 * (q - half);
  }

  lemma EvenWords(n: nat, aux: nat)
    ensures (4 + n + 2 * aux + n % 2) % 2 == 0
    ensures (n * 8 + aux * 16 + 16) % 16 != 0 <==> n % 2 == 1
  {
    var k, b := n / 2, n % 2;
    assert n == 2 * k + b;
    assert 4 + n + 2 * aux + b == 2 * (2 + k + aux + b);
    assert n * 8 + aux * 16 + 16 == 16 * (k + aux + 1) + 8 * b;
  }

  datatype Registers = Registers(rdi: nat, rsi: nat, rdx: nat, rsp: nat)

  /** The zeros at the top: the end of the auxiliary vector, and one more if the count of words would be
      odd. */
  method PushZeros(mem: array<Byte>, sp: nat, argc: nat, envc: nat, auxc: nat, ghost start: seq<Byte>,
                   ghost rest: seq<Byte>)
    returns (sp': nat)
    requires 16 <= sp <= mem.Length && Stacked(mem[..], start, sp, [], rest)
    modifies mem
    ensures sp' == sp - 8 * |Zeros(argc + envc)| && Stacked(mem[..], start, sp', Zeros(argc + envc), rest)
  {
    hide Stacked;
    EvenWords(argc + envc, auxc);
    sp' := Push(mem, sp, 0, start, [], rest);
    assert [0] + [] == [0];
    if (argc * 8 + auxc * 16 + envc * 8 + 16) % 16 != 0 {
      sp' := Push(mem, sp', 0, start, [0], rest);
      assert [0] + [0] == [0, 0];
    }
  }

  /** Everything above the strings: padding, pairs, pointers and the count. */
  method PushWords(mem: array<Byte>, sp: nat, rsp: nat, offsets: array<nat>, argv: seq<Text>, envp: seq<Text>,
                   auxv: seq<Aux>,
                   ghost filled: seq<Byte>, ghost rest: seq<Byte>)
    returns (sp': nat, argOffset: nat, auxOffset: nat)
    requires |Packed(argv + envp)| <= rsp && offsets.Length == |argv + envp| && mem != offsets as object
    requires forall i :: 0 <= i < offsets.Length ==> offsets[i] == Offset(argv + envp, i)
    requires 8 * |Words(rsp, argv, envp, auxv)| <= sp <= mem.Length && Stacked(mem[..], filled, sp, [], rest)
    modifies mem
    ensures sp' == sp - 8 * |Words(rsp, argv, envp, auxv)|
    ensures Stacked(mem[..], filled, sp', Words(rsp, argv, envp, auxv), rest)
    ensures argOffset == mem.Length - sp' - 8 && auxOffset == mem.Length - sp' - 8 * (|argv| + |envp| + 3)
  {
    hide Packed, Offset, Stacked, Flat;
    var argc, n := |argv|, |argv| + |envp|;
    ghost var p := Pointers(rsp, argv + envp);
    ghost var w := Zeros(n);
    sp' := PushZeros(mem, sp, argc, |envp|, |auxv|, filled, rest);
    sp' := PushAux(mem, sp', auxv, filled, w, rest);
    w := Flat(auxv) + w;
    auxOffset := mem.Length - sp';
    sp' := Push(mem, sp', 0, filled, w, rest);
    w := [0] + w;
    sp' := PushPointers(mem, sp', rsp, offsets, argc, n, p, filled, w, rest);
    w := p[argc..n] + w;
    sp' := Push(mem, sp', 0, filled, w, rest);
    w := [0] + w;
    sp' := PushPointers(mem, sp', rsp, offsets, 0, argc, p, filled, w, rest);
    w := p[0..argc] + w;
    argOffset := mem.Length - sp';
    sp' := Push(mem, sp', argc, filled, w, rest);
    WordsAre(rsp, argv, envp, auxv, p);
  }

  lemma WordsAre(rsp: nat, argv: seq<Text>, envp: seq<Text>, auxv: seq<Aux>, p: seq<nat>)
    requires |Packed(argv + envp)| <= rsp && p == Pointers(rsp, argv + envp)
    ensures var argc, n := |argv|, |argv| + |envp|;
            [argc] + (p[0..argc] + ([0] + (p[argc..n] + ([0] + (Flat(auxv) + Zeros(n)))))) ==
                Words(rsp, argv, envp, auxv)
  {
    hide Packed, Offset, Flat, Zeros;
    assert p[0..|argv|] == p[..|argv|] && p[|argv|..|argv| + |envp|] == p[|argv|..];
  }

  /** The stack-building part of add_new_child_thread. `top` is the kernel's address of the top of the
      stack and `rsp` the user's. A program started with these registers reads its arguments back,
      and nothing below its stack pointer is written. */
  method BuildStack(mem: array<Byte>, top: nat, rsp: nat, argv: seq<Text>, envp: seq<Text>,
                    auxv: seq<Aux>) returns (r: Registers)
    requires mem.Length <= top && mem.Length <= rsp
    requires |Packed(argv + envp)| <= top && Height(top, argv, envp, auxv) <= mem.Length
    modifies mem
    ensures r.rsp == rsp - Height(top, argv, envp, auxv)
    ensures var strings, n := |Packed(argv + envp)|, |argv| + |envp|;
            rsp - r.rsp == strings + (top - strings) % 16 + 8 * (4 + n + 2 * |auxv| + n % 2)
    ensures mem[..mem.Length - (rsp - r.rsp)] == old(mem[..mem.Length - Height(top, argv, envp, auxv)])
    ensures Passable(rsp, argv, envp, auxv) ==>
              ReadStack(mem[..], rsp - mem.Length, r.rsp) == Some(Startup(argv, envp, auxv))
    ensures r.rdi == |argv| && r.rsi == r.rsp + 8 && r.rdx == r.rsp + 8 * (|argv| + |envp| + 3)
    ensures (top - (rsp - r.rsp)) % 16 == 0
  {
    hide Packed, Offset, Copied, Stacked, Flat, WordBytes, ReadStack, Passable;
    var argc, texts, n := |argv|, argv + envp, mem.Length;
    ghost var start := mem[..];
    var offsets := new nat[|texts|];
    NothingCopied(start, texts);
    var total := CopyTexts(mem, texts, 0, argc, 0, offsets, start);
    total := CopyTexts(mem, texts, argc, |texts|, total, offsets, start);
    assert texts[..|texts|] == texts;
    var sp := n - total - (top - total) % 16;
    ghost var filled := mem[..];
    ghost var rest := filled[sp..];
    NothingPushed(filled, sp);
    var argOffset, auxOffset;
    sp, argOffset, auxOffset := PushWords(mem, sp, rsp, offsets, argv, envp, auxv, filled, rest);
    r := Registers(argc, rsp - argOffset, rsp - auxOffset, rsp - (n - sp));
    StaysAligned(top, argv, envp, auxv);
    assert (top - (n - sp)) % 16 == 0;
    Finished(mem[..], start, filled, sp, top, rsp, argv, envp, auxv);
  }

  /** With strings and words in place, memory is the image. */
  lemma Finished(m: seq<Byte>, start: seq<Byte>, filled: seq<Byte>, sp: nat, top: nat, rsp: nat, argv: seq<Text>,
                 envp: seq<Text>, auxv: seq<Aux>)
    requires |start| == |filled| == |m| <= rsp && |Packed(argv + envp)| <= top && |m| <= top
    requires Height(top, argv, envp, auxv) <= |m| && sp == |m| - Height(top, argv, envp, auxv)
    requires Copied(filled, start, argv + envp, |argv + envp|)
    requires Stacked(m, filled, sp, Words(rsp, argv, envp, auxv), filled[|m| - WordsTop(top, argv, envp)..])
    ensures m[..sp] == start[..sp]
    ensures Passable(rsp, argv, envp, auxv) ==>
              ReadStack(m, rsp - |m|, rsp - (|m| - sp)) == Some(Startup(argv, envp, auxv))
  {
    hide Packed, Words, WordBytes, ReadStack, Passable;
    var texts, packed := argv + envp, Packed(argv + envp);
    assert texts[..|texts|] == texts;
    var lo, hi := |m| - WordsTop(top, argv, envp), |m| - |packed|;
    var below, gap := filled[..sp], filled[lo..hi];
    assert filled[..sp] == start[..sp];
    assert filled[lo..] == gap + packed;
    assert m == Image(below, gap, rsp, argv, envp, auxv) by {
      assert below + WordBytes(Words(rsp, argv, envp, auxv)) + (gap + packed) ==
          below + WordBytes(Words(rsp, argv, envp, auxv)) + gap + packed;
    }
    if Passable(rsp, argv, envp, auxv) {
      ReadsBack(below, gap, rsp, argv, envp, auxv);
    }
  }
}
