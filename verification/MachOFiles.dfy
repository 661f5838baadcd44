/** What the reader of MachO does on every file, well-formed or not: which commands a walk
    visits, when the script raises, stops without a result or extracts, and what. */
module MachOFiles {
  import opened Words
  import opened Wrappers
  import opened MachO

  // ---------------------------------------------------------------- names

  /** UTF-8 of one character (RFC 3629, section 3). */
  function CharBytes(c: char): seq<u8> {
    var v := c as int;
    if v < 0x80 then [v]
    else if v < 0x800 then [0xC0 + v / 64, 0x80 + v % 64]
    else if v < 0x1_0000 then [0xE0 + v / 4096, 0x80 + v / 64 % 64, 0x80 + v % 64]
    else [0xF0 + v / 262144, 0x80 + v / 4096 % 64, 0x80 + v / 64 % 64, 0x80 + v % 64]
  }

  function TextBytes(text: string): seq<u8> {
    if text == "" then [] else CharBytes(text[0]) + TextBytes(text[1..])
  }

  lemma CharAccepted(c: char, rest: seq<u8>)
    ensures Utf8(CharBytes(c) + rest) <==> Utf8(rest)
  {
    var s := CharBytes(c) + rest;
    assert s[|CharBytes(c)|..] == rest;
  }

  lemma {:induction false} TextAccepted(text: string)
    ensures Utf8(TextBytes(text))
    decreases |text|
  {
    if text != "" {
      TextAccepted(text[1..]);
      CharAccepted(text[0], TextBytes(text[1..]));
    }
  }

  /** The character at the head of accepted bytes. */
  lemma CharRead(s: seq<u8>) returns (c: char)
    requires s != [] && Utf8(s)
    ensures 0 < |CharBytes(c)| <= |s| && CharBytes(c) == s[..|CharBytes(c)|] && Utf8(s[|CharBytes(c)|..])
  {
    if s[0] < 0x80 {
      c := s[0] as char;
    } else if s[0] < 0xE0 {
      c := CharOf2(s[0], s[1]);
    } else if s[0] < 0xF0 {
      c := CharOf3(s[0], s[1], s[2]);
    } else {
      c := CharOf4(s[0], s[1], s[2], s[3]);
    }
  }

  lemma CharOf2(a: u8, b: u8) returns (c: char)
    requires 0xC2 <= a < 0xE0 && Tail(b)
    ensures CharBytes(c) == [a, b]
  {
    var v: nat := (a as int - 0xC0) * 64 + (b as int - 0x80);
    assert v / 64 == a as int - 0xC0 && v % 64 == b as int - 0x80;
    c := v as char;
  }

  lemma CharOf3(a: u8, b: u8, d: u8) returns (c: char)
    requires 0xE0 <= a < 0xF0 && Tail(b) && Tail(d) && (a == 0xE0 ==> b >= 0xA0) && (a == 0xED ==> b < 0xA0)
    ensures CharBytes(c) == [a, b, d]
  {
    var x, y, z: nat := a as int - 0xE0, b as int - 0x80, d as int - 0x80;
    var v: nat := x * 4096 + y * 64 + z;
    assert v / 4096 == x && v % 4096 == y * 64 + z;
    assert v / 64 == x * 64 + y && v % 64 == z;
    assert (x * 64 + y) / 64 == x && (x * 64 + y) % 64 == y;
    c := v as char;
  }

  lemma CharOf4(a: u8, b: u8, d: u8, e: u8) returns (c: char)
    requires 0xF0 <= a < 0xF5 && Tail(b) && Tail(d) && Tail(e) && (a == 0xF0 ==> b >= 0x90) && (a == 0xF4 ==> b < 0x90)
    ensures CharBytes(c) == [a, b, d, e]
  {
    var w, x, y, z: nat := a as int - 0xF0, b as int - 0x80, d as int - 0x80, e as int - 0x80;
    var v: nat := w * 262144 + x * 4096 + y * 64 + z;
    assert v / 262144 == w && v % 262144 == x * 4096 + y * 64 + z;
    assert v / 4096 == w * 64 + x && v % 4096 == y * 64 + z;
    assert (w * 64 + x) / 64 == w && (w * 64 + x) % 64 == x;
    assert v / 64 == w * 4096 + x * 64 + y && v % 64 == z;
    assert (w * 4096 + x * 64 + y) / 64 == w * 64 + x && (w * 4096 + x * 64 + y) % 64 == y;
    c := v as char;
  }

  lemma {:induction false} TextRead(s: seq<u8>) returns (text: string)
    requires Utf8(s)
    ensures TextBytes(text) == s
    decreases |s|
  {
    text := "";
    if s != [] {
      var c := CharRead(s);
      var rest := TextRead(s[|CharBytes(c)|..]);
      text := [c] + rest;
    }
  }

  /** Strict decoding accepts exactly the encodings of texts. */
  lemma Utf8Exact(s: seq<u8>)
    ensures Utf8(s) <==> exists text: string :: TextBytes(text) == s
  {
    if Utf8(s) {
      var text := TextRead(s);
    }
    forall text: string | TextBytes(text) == s
      ensures Utf8(s)
    {
      TextAccepted(text);
    }
  }

  /** `name` is what stands between `start` and the next NUL or the end of the file. */
  predicate NameAt(data: seq<u8>, start: nat, name: seq<u8>) {
    if start >= |data| then name == []
    else
      && start + |name| <= |data| && data[start..start + |name|] == name && NulFree(name)
      && (start + |name| < |data| ==> data[start + |name|] == 0)
  }

  lemma CStringExact(data: seq<u8>, start: nat)
    ensures NameAt(data, start, CString(Slice(data, start, start + |data|)))
  {
    if start < |data| {
      assert Slice(data, start, start + |data|) == data[start..];
    }
  }

  lemma NameUnique(data: seq<u8>, start: nat, a: seq<u8>, b: seq<u8>)
    requires NameAt(data, start, a) && NameAt(data, start, b)
    ensures a == b
  {
    if start < |data| {
      assert forall k :: 0 <= k < |a| ==> a[k] == data[start..start + |a|][k] == data[start + k];
      assert forall k :: 0 <= k < |b| ==> b[k] == data[start..start + |b|][k] == data[start + k];
    }
  }

  // ---------------------------------------------------------------- walks

  /** The size field of a command, or 0 if it does not lie in the file. */
  function SizeAt(data: seq<u8>, at: nat): nat {
    if at + 8 <= |data| then LeValue(data[at + 4..at + 8]) else 0
  }

  /** A command that the walk can pass. */
  predicate Stands(data: seq<u8>, c: Command) {
    c.at + 8 <= |data| && c.cmd == LeValue(data[c.at..c.at + 4]) && SizeAt(data, c.at) != 0
  }

  /** The commands follow each other from `at`, each at the size of the one before. */
  predicate Chain(data: seq<u8>, at: nat, cs: seq<Command>) {
    && (forall j :: 0 <= j < |cs| ==> Stands(data, cs[j]))
    && (cs != [] ==> cs[0].at == at)
    && (forall j :: 1 <= j < |cs| ==> cs[j].at == cs[j - 1].at + SizeAt(data, cs[j - 1].at))
  }

  /** Where a walk from `at` stands behind the commands `cs`. */
  function Next(data: seq<u8>, at: nat, cs: seq<Command>): nat {
    if cs == [] then at else cs[|cs| - 1].at + SizeAt(data, cs[|cs| - 1].at)
  }

  /** `cs` are all the commands of the walk: it made `n` steps or met the size zero. */
  predicate Walked(data: seq<u8>, n: nat, at: nat, cs: seq<Command>) {
    && Chain(data, at, cs) && |cs| <= n
    && (|cs| == n || (Next(data, at, cs) + 8 <= |data| && SizeAt(data, Next(data, at, cs)) == 0))
  }

  /** The walk runs out of the file before its `n` steps. */
  predicate Overrun(data: seq<u8>, n: nat, at: nat, cs: seq<Command>) {
    Chain(data, at, cs) && |cs| < n && Next(data, at, cs) + 8 > |data|
  }

  lemma ChainCons(data: seq<u8>, at: nat, c: Command, cs: seq<Command>)
    requires Stands(data, c) && c.at == at && Chain(data, at + SizeAt(data, at), cs)
    ensures Chain(data, at, [c] + cs) && Next(data, at, [c] + cs) == Next(data, at + SizeAt(data, at), cs)
  {
    hide SizeAt, Stands;
    var all := [c] + cs;
    forall j | 0 <= j < |all|
      ensures Stands(data, all[j])
      ensures j > 0 ==> all[j].at == all[j - 1].at + SizeAt(data, all[j - 1].at)
    {
      if j > 1 {
        assert all[j] == cs[j - 1] && all[j - 1] == cs[j - 2];
      }
    }
  }

  /** A walk ends in exactly one way, with the commands it visited. */
  lemma {:induction false} WalkEnds(data: seq<u8>, n: nat, at: nat) returns (cs: seq<Command>)
    ensures match Walk(data, n, at)
            case Done(done) => cs == done && Walked(data, n, at, cs)
            case Raised => Overrun(data, n, at, cs)
    decreases n
  {
    hide LeValue, Chain;
    cs := [];
    assert Chain(data, at, []) by { NoCommands(data, at); }
    if n != 0 && at + 8 <= |data| && Word32(data, at + 4) != 0 {
      var rest := WalkEnds(data, n - 1, at + Word32(data, at + 4));
      var c := Command(Word32(data, at), at);
      ChainCons(data, at, c, rest);
      cs := [c] + rest;
    }
  }

  lemma NoCommands(data: seq<u8>, at: nat)
    ensures Chain(data, at, [])
  {
  }

  /** Chains of the same start agree as far as both go. */
  lemma {:induction false} ChainsAgree(data: seq<u8>, at: nat, a: seq<Command>, b: seq<Command>, n: nat)
    requires Chain(data, at, a) && Chain(data, at, b) && n <= |a| && n <= |b|
    ensures a[..n] == b[..n]
    decreases n
  {
    hide SizeAt;
    if n != 0 {
      ChainsAgree(data, at, a, b, n - 1);
      var i := n - 1;
      assert n > 1 ==> a[n - 2] == a[..i][n - 2] == b[..i][n - 2] == b[n - 2];
      assert a[i].at == b[i].at;
      assert Stands(data, a[i]) && Stands(data, b[i]);
      assert a[..n] == a[..i] + [a[i]] && b[..n] == b[..i] + [b[i]];
    }
  }

  /** A chain that goes on passes where its front stands. */
  lemma ChainGoesOn(data: seq<u8>, at: nat, a: seq<Command>, n: nat)
    requires Chain(data, at, a) && n < |a|
    ensures Next(data, at, a[..n]) + 8 <= |data| && SizeAt(data, Next(data, at, a[..n])) != 0
  {
    hide SizeAt, Stands;
    var front := a[..n];
    assert Stands(data, a[n]);
    assert n > 0 ==> front[n - 1] == a[n - 1];
    assert a[n].at == if n == 0 then at else a[n - 1].at + SizeAt(data, a[n - 1].at);
    StandsSized(data, a[n]);
  }

  lemma StandsSized(data: seq<u8>, c: Command)
    requires Stands(data, c)
    ensures c.at + 8 <= |data| && SizeAt(data, c.at) != 0
  {
  }

  /** The description of a walk determines it. */
  lemma WalkUnique(data: seq<u8>, n: nat, at: nat, a: seq<Command>, b: seq<Command>)
    requires Walked(data, n, at, a) || Overrun(data, n, at, a)
    requires Walked(data, n, at, b) || Overrun(data, n, at, b)
    ensures a == b
  {
    hide Chain, SizeAt, Next;
    var m := if |a| < |b| then |a| else |b|;
    ChainsAgree(data, at, a, b, m);
    assert a[..|a|] == a && b[..|b|] == b;
    if m < |a| {
      ChainGoesOn(data, at, a, m);
      assert false;
    }
    if m < |b| {
      ChainGoesOn(data, at, b, m);
      assert false;
    }
  }

  /** A walk yields `cs` exactly if these follow each other from its start until its steps
      are made or a size is zero; it raises exactly if it leaves the file before. */
  lemma WalkExact(data: seq<u8>, n: nat, at: nat, cs: seq<Command>)
    ensures Walk(data, n, at) == Done(cs) <==> Walked(data, n, at, cs)
    ensures Walk(data, n, at) == Raised <==> exists ds :: Overrun(data, n, at, ds)
  {
    hide Walk, Chain, SizeAt, Next;
    var ds := WalkEnds(data, n, at);
    if Walked(data, n, at, cs) {
      WalkUnique(data, n, at, cs, ds);
    }
    forall es | Overrun(data, n, at, es)
      ensures Overrun(data, n, at, ds)
    {
      WalkUnique(data, n, at, ds, es);
    }
  }

  // ---------------------------------------------------------------- the two searches

  /** Result `i` counts: nothing raises before it and nothing is found behind it. */
  predicate Settles<T(==)>(rs: seq<Outcome<Option<T>>>, i: nat, v: T)
    requires i < |rs|
  {
    && rs[i] == Done(Some(v)) && (forall j :: 0 <= j < i ==> rs[j].Done?)
    && forall j :: i < j < |rs| ==> rs[j] == Done(None)
  }

  lemma {:induction false} LastSettles<T>(rs: seq<Outcome<Option<T>>>, v: T) returns (i: nat)
    requires Last(rs) == Done(Some(v))
    ensures i < |rs| && Settles(rs, i, v)
    decreases |rs|
  {
    i := |rs| - 1;
    var front := rs[..i];
    if rs[i] == Done(None) {
      i := LastSettles(front, v);
    } else {
      AllDone(front);
    }
  }

  lemma {:induction false} AllDone<T>(rs: seq<Outcome<Option<T>>>)
    requires Last(rs).Done?
    ensures forall j :: 0 <= j < |rs| ==> rs[j].Done?
    ensures Last(rs).value.None? ==> forall j :: 0 <= j < |rs| ==> rs[j] == Done(None)
    decreases |rs|
  {
    if rs != [] {
      AllDone(rs[..|rs| - 1]);
    }
  }

  lemma {:induction false} NothingLast<T>(rs: seq<Outcome<Option<T>>>)
    requires forall j :: 0 <= j < |rs| ==> rs[j] == Done(None)
    ensures Last(rs) == Done(None)
    decreases |rs|
  {
    if rs != [] {
      NothingLast(rs[..|rs| - 1]);
    }
  }

  /** The name of a fileset entry, which its word at 24 leads to. */
  predicate EntryNamed(data: seq<u8>, c: Command, name: seq<u8>) {
    c.cmd == 0x8000_0035 && c.at + 28 <= |data| && NameAt(data, c.at + LeValue(data[c.at + 24..c.at + 28]), name)
  }

  function AsBytes(text: string): seq<u8>
    requires forall i :: 0 <= i < |text| ==> (text[i] as int) < 0x80
  {
    seq(|text|, i requires 0 <= i < |text| => text[i] as int)
  }

  /** The command is the entry of IORDMAFamily, whose kext starts at `e.fileoff`. */
  predicate IsEntry(data: seq<u8>, c: Command, e: Entry) {
    && EntryNamed(data, c, AsBytes("com.apple.iokit.IORDMAFamily"))
    && e.fileoff == LeValue(data[c.at + 16..c.at + 24])
    && e.fileoff + 20 <= |data| && e.ncmds == LeValue(data[e.fileoff + 16..e.fileoff + 20])
  }

  /** Some other command, or the entry of some other kext. */
  ghost predicate NoEntry(data: seq<u8>, c: Command) {
    c.cmd == 0x8000_0035 ==>
      exists name :: EntryNamed(data, c, name) && Utf8(name) && name != AsBytes("com.apple.iokit.IORDMAFamily")
  }

  lemma EntryOfExact(data: seq<u8>, c: Command, e: Entry)
    ensures EntryOf(data, c) == Done(Some(e)) <==> IsEntry(data, c, e)
    ensures EntryOf(data, c) == Done(None) <==> NoEntry(data, c)
  {
    hide LeValue, CString, NameAt, Utf8, Slice;
    if c.cmd == 0x8000_0035 && c.at + 28 <= |data| {
      var start := c.at + LeValue(data[c.at + 24..c.at + 28]);
      var name := CString(Slice(data, start, start + |data|));
      CStringExact(data, start);
      forall other | NameAt(data, start, other)
        ensures other == name
      {
        NameUnique(data, start, name, other);
      }
      NamedExact(name);
    }
  }

  lemma NamedExact(name: seq<u8>)
    ensures Named(name) <==> name == AsBytes("com.apple.iokit.IORDMAFamily")
    ensures Named(name) ==> Utf8(name)
  {
    if Named(name) {
      AsciiIsUtf8(name);
    }
  }

  lemma {:induction false} AsciiIsUtf8(s: seq<u8>)
    requires AsciiOnly(s)
    ensures Utf8(s)
  {
    if s != [] {
      AsciiIsUtf8(s[1..]);
    }
  }

  /** A symbol table command with its four words. */
  predicate IsTable(data: seq<u8>, c: Command, t: SymbolTable) {
    && c.cmd == 0x2 && c.at + 24 <= |data|
    && t.symoff == LeValue(data[c.at + 8..c.at + 12]) && t.nsyms == LeValue(data[c.at + 12..c.at + 16])
    && t.stroff == LeValue(data[c.at + 16..c.at + 20]) && t.strsize == LeValue(data[c.at + 20..c.at + 24])
  }

  /** Some other command; of a dynamic symbol table two words are read. */
  predicate NoTable(data: seq<u8>, c: Command) {
    c.cmd != 0x2 && (c.cmd == 0xB ==> c.at + 24 <= |data|)
  }

  lemma TableOfExact(data: seq<u8>, c: Command, t: SymbolTable)
    ensures TableOf(data, c) == Done(Some(t)) <==> IsTable(data, c, t)
    ensures TableOf(data, c) == Done(None) <==> NoTable(data, c)
  {
    hide LeValue;
  }

  /** Among the commands of the file the entry `e` is the last of its kind, and none
      makes the script raise. */
  ghost predicate EntryIn(data: seq<u8>, e: Entry) {
    && |data| >= 20
    && exists cs, i :: Walked(data, LeValue(data[16..20]), 32, cs) && EntryAmong(data, cs, i, e)
  }

  ghost predicate EntryAmong(data: seq<u8>, cs: seq<Command>, i: nat, e: Entry) {
    && i < |cs| && IsEntry(data, cs[i], e)
    && (forall j :: 0 <= j < i ==> NoEntry(data, cs[j]) || exists other :: IsEntry(data, cs[j], other))
    && (forall j :: i < j < |cs| ==> NoEntry(data, cs[j]))
  }

  /** The whole walk meets no such entry. */
  ghost predicate EntryAbsent(data: seq<u8>) {
    && |data| >= 20
    && exists cs :: Walked(data, LeValue(data[16..20]), 32, cs) && forall j :: 0 <= j < |cs| ==> NoEntry(data, cs[j])
  }

  /** Among the commands of the kext `t` is the last symbol table. */
  ghost predicate TableIn(data: seq<u8>, e: Entry, t: SymbolTable) {
    exists cs, i :: Walked(data, e.ncmds, e.fileoff + 32, cs) && TableAmong(data, cs, i, t)
  }

  ghost predicate TableAmong(data: seq<u8>, cs: seq<Command>, i: nat, t: SymbolTable) {
    && i < |cs| && IsTable(data, cs[i], t)
    && (forall j :: 0 <= j < i ==> NoTable(data, cs[j]) || exists other :: IsTable(data, cs[j], other))
    && (forall j :: i < j < |cs| ==> NoTable(data, cs[j]))
  }

  lemma EntryAmongExact(data: seq<u8>, cs: seq<Command>, e: Entry)
    ensures Last(Entries(data, cs)) == Done(Some(e)) <==> exists i :: EntryAmong(data, cs, i, e)
    ensures Last(Entries(data, cs)) == Done(None) <==> forall j :: 0 <= j < |cs| ==> NoEntry(data, cs[j])
  {
    hide EntryOf, IsEntry, NoEntry, Last;
    var rs := Entries(data, cs);
    forall j, x | 0 <= j < |cs|
      ensures rs[j] == Done(Some(x)) <==> IsEntry(data, cs[j], x)
    {
      EntryOfExact(data, cs[j], x);
    }
    forall j | 0 <= j < |cs|
      ensures rs[j] == Done(None) <==> NoEntry(data, cs[j])
    {
      EntryOfExact(data, cs[j], e);
    }
    if Last(rs) == Done(Some(e)) {
      var i := LastSettles(rs, e);
      forall j | 0 <= j < i
        ensures NoEntry(data, cs[j]) || exists other :: IsEntry(data, cs[j], other)
      {
        if rs[j].value.Some? {
          assert IsEntry(data, cs[j], rs[j].value.value);
        }
      }
      assert EntryAmong(data, cs, i, e);
    }
    if i :| EntryAmong(data, cs, i, e) {
      forall j | 0 <= j < i
        ensures rs[j].Done?
      {
        if !NoEntry(data, cs[j]) {
          var other :| IsEntry(data, cs[j], other);
          assert rs[j] == Done(Some(other));
        }
      }
      LastIs(rs, i);
    }
    if Last(rs) == Done(None) {
      AllDone(rs);
    }
    if forall j :: 0 <= j < |cs| ==> NoEntry(data, cs[j]) {
      NothingLast(rs);
    }
  }

  lemma TableAmongExact(data: seq<u8>, cs: seq<Command>, t: SymbolTable)
    ensures Last(Tables(data, cs)) == Done(Some(t)) <==> exists i :: TableAmong(data, cs, i, t)
  {
    hide TableOf, IsTable, NoTable, Last;
    var rs := Tables(data, cs);
    forall j, x | 0 <= j < |cs|
      ensures rs[j] == Done(Some(x)) <==> IsTable(data, cs[j], x)
    {
      TableOfExact(data, cs[j], x);
    }
    forall j | 0 <= j < |cs|
      ensures rs[j] == Done(None) <==> NoTable(data, cs[j])
    {
      TableOfExact(data, cs[j], t);
    }
    if Last(rs) == Done(Some(t)) {
      var i := LastSettles(rs, t);
      forall j | 0 <= j < i
        ensures NoTable(data, cs[j]) || exists other :: IsTable(data, cs[j], other)
      {
        if rs[j].value.Some? {
          assert IsTable(data, cs[j], rs[j].value.value);
        }
      }
      assert TableAmong(data, cs, i, t);
    }
    if i :| TableAmong(data, cs, i, t) {
      forall j | 0 <= j < i
        ensures rs[j].Done?
      {
        if !NoTable(data, cs[j]) {
          var other :| IsTable(data, cs[j], other);
          assert rs[j] == Done(Some(other));
        }
      }
      LastIs(rs, i);
    }
  }

  /** The first search, on every file. */
  lemma FindEntryExact(data: seq<u8>, e: Entry)
    ensures FindEntry(data) == Done(Some(e)) <==> EntryIn(data, e)
    ensures FindEntry(data) == Done(None) <==> EntryAbsent(data)
  {
    hide LeValue, Walk, Last, Entries, Walked, EntryAmong, NoEntry;
    if |data| >= 20 {
      var n := Word32(data, 16);
      forall cs
        ensures Walk(data, n, 32) == Done(cs) <==> Walked(data, n, 32, cs)
      {
        WalkExact(data, n, 32, cs);
      }
      if Walk(data, n, 32).Done? {
        EntryAmongExact(data, Walk(data, n, 32).value, e);
      }
    }
  }

  /** The second search, from every entry. */
  lemma FindTableExact(data: seq<u8>, e: Entry, t: SymbolTable)
    ensures FindTable(data, e) == Done(Some(t)) <==> TableIn(data, e, t)
  {
    hide LeValue, Walk, Last, Tables, Walked, TableAmong;
    var n, at := e.ncmds, e.fileoff + 32;
    forall cs
      ensures Walk(data, n, at) == Done(cs) <==> Walked(data, n, at, cs)
    {
      WalkExact(data, n, at, cs);
    }
    if Walk(data, n, at).Done? {
      var cs := Walk(data, n, at).value;
      TableAmongExact(data, cs, t);
      assert Walked(data, n, at, cs);
    }
  }

  // ---------------------------------------------------------------- symbols

  /** `name` stands in the string table at the offset that symbol `j` gives, with a NUL
      behind it that is still part of the table and of the file. */
  predicate SymbolNamed(data: seq<u8>, t: SymbolTable, j: nat, name: seq<u8>)
    requires t.symoff + j * 16 + 16 <= |data|
  {
    var p := t.stroff + LeValue(data[t.symoff + j * 16..t.symoff + j * 16 + 4]);
    && p + |name| < t.stroff + t.strsize && p + |name| < |data|
    && data[p..p + |name|] == name && NulFree(name) && data[p + |name|] == 0
  }

  /** A name as printed: bytes outside ASCII are replaced. */
  predicate PrintedAs(name: seq<u8>, text: string) {
    && |text| == |name|
    && forall i :: 0 <= i < |name| ==> text[i] == if name[i] < 0x80 then name[i] as char else '\U{FFFD}'
  }

  /** Symbol `j` lies in the file, is external, defined and named, and reads as `e`. */
  ghost predicate IsExport(data: seq<u8>, t: SymbolTable, j: nat, e: Export) {
    var so := t.symoff + j * 16;
    && so + 16 <= |data| && data[so + 4] % 2 == 1 && data[so + 5] != 0 && e.value == LeValue(data[so + 8..so + 16])
    && exists name :: name != [] && SymbolNamed(data, t, j, name) && PrintedAs(name, e.name)
  }

  lemma NameInExact(data: seq<u8>, t: SymbolTable, j: nat, name: seq<u8>)
    requires t.symoff + j * 16 + 16 <= |data| && name != []
    ensures NameIn(Slice(data, t.stroff, t.stroff + t.strsize), Word32(data, t.symoff + j * 16)) == name
            <==> SymbolNamed(data, t, j, name)
  {
    hide LeValue, Slice, NameIn, NulFree;
    var strtab, strx := Slice(data, t.stroff, t.stroff + t.strsize), Word32(data, t.symoff + j * 16);
    StringAt(data, t.stroff, t.strsize, strx, name);
  }

  /** `name` with a NUL behind it is what the string table holds at `strx`. */
  lemma StringAt(data: seq<u8>, stroff: nat, strsize: nat, strx: nat, name: seq<u8>)
    requires name != []
    ensures NameIn(Slice(data, stroff, stroff + strsize), strx) == name <==>
            var p := stroff + strx;
            && p + |name| < stroff + strsize && p + |name| < |data|
            && data[p..p + |name|] == name && NulFree(name) && data[p + |name|] == 0
  {
    var strtab, p := Slice(data, stroff, stroff + strsize), stroff + strx;
    assert forall k :: 0 <= k < |strtab| ==> strtab[k] == data[stroff + k];
    if NameIn(strtab, strx) == name {
      assert strtab[strx..strx + |name|] == data[p..p + |name|];
    }
    if p + |name| < stroff + strsize && p + |name| < |data| && data[p..p + |name|] == name && NulFree(name)
       && data[p + |name|] == 0 {
      assert strtab[strx..strx + |name|] == data[p..p + |name|];
      NameReads(strtab, strx, name);
    }
  }

  lemma KeptExact(data: seq<u8>, t: SymbolTable, j: nat)
    requires t.symoff + j * 16 + 16 <= |data|
    ensures Kept(data, t, j) == [] <==> forall e :: !IsExport(data, t, j, e)
    ensures Kept(data, t, j) != [] ==> |Kept(data, t, j)| == 1 && IsExport(data, t, j, Kept(data, t, j)[0])
  {
    hide LeValue, NameIn, Slice, SymbolNamed;
    var so := t.symoff + j * 16;
    var name := NameIn(Slice(data, t.stroff, t.stroff + t.strsize), Word32(data, so));
    forall other | other != []
      ensures name == other <==> SymbolNamed(data, t, j, other)
    {
      NameInExact(data, t, j, other);
    }
    if Kept(data, t, j) != [] {
      assert SymbolNamed(data, t, j, name) && PrintedAs(name, Decoded(name));
      assert IsExport(data, t, j, Kept(data, t, j)[0]);
    }
    forall e | IsExport(data, t, j, e)
      ensures Kept(data, t, j) != []
    {
      var other :| other != [] && SymbolNamed(data, t, j, other) && PrintedAs(other, e.name);
      assert name == other;
    }
  }

  /** `es` are the exports of the symbols `js`, and these are all below `n` that have one. */
  ghost predicate Selects(data: seq<u8>, t: SymbolTable, n: nat, js: seq<nat>, es: seq<Export>) {
    && |js| == |es|
    && (forall i :: 0 <= i < |js| ==> js[i] < n && IsExport(data, t, js[i], es[i]))
    && (forall i, k :: 0 <= i < k < |js| ==> js[i] < js[k])
    && (forall j: nat, e :: j < n && IsExport(data, t, j, e) ==> j in js)
  }

  /** The loop lists each symbol that has an export once, in table order, and no others;
      symbols outside the file and names that run out of the string table have none. */
  lemma {:induction false} ExportsExact(data: seq<u8>, t: SymbolTable, n: nat) returns (js: seq<nat>)
    ensures Selects(data, t, n, js, Exports(data, t, n))
    decreases n
  {
    hide IsExport, Kept;
    js := [];
    if n != 0 {
      var j := n - 1;
      var front := ExportsExact(data, t, j);
      js := front;
      if t.symoff + j * 16 + 16 <= |data| {
        KeptExact(data, t, j);
        if Kept(data, t, j) != [] {
          js := front + [j];
          assert Exports(data, t, n) == Exports(data, t, j) + [Kept(data, t, j)[0]];
        }
      } else {
        OutsideNone(data, t, j);
      }
    }
  }

  lemma OutsideNone(data: seq<u8>, t: SymbolTable, j: nat)
    requires t.symoff + j * 16 + 16 > |data|
    ensures forall e :: !IsExport(data, t, j, e)
  {
  }

  /** The script on every file. It finds nothing exactly if the whole walk meets no entry
      of IORDMAFamily; it extracts exactly if the last such entry leads to a symbol table,
      and then the exports of that table; in every other case it raises. */
  lemma ExtractionDecided(data: seq<u8>)
    ensures Extraction(data) == Done(None) <==> EntryAbsent(data)
    ensures forall es :: Extraction(data) == Done(Some(es)) ==>
              exists e, t, js :: EntryIn(data, e) && TableIn(data, e, t) && Selects(data, t, t.nsyms, js, es)
    ensures Extraction(data) == Raised <==>
              !EntryAbsent(data) && forall e, t :: !(EntryIn(data, e) && TableIn(data, e, t))
  {
    hide FindEntry, FindTable, Exports, EntryAbsent, EntryIn, TableIn, Selects;
    forall e
      ensures FindEntry(data) == Done(Some(e)) <==> EntryIn(data, e)
    {
      FindEntryExact(data, e);
    }
    FindEntryExact(data, Entry(0, 0));
    forall e, t
      ensures FindTable(data, e) == Done(Some(t)) <==> TableIn(data, e, t)
    {
      FindTableExact(data, e, t);
    }
    if Extraction(data).Done? && Extraction(data).value.Some? {
      var e := FindEntry(data).value.value;
      var t := FindTable(data, e).value.value;
      var js := ExportsExact(data, t, t.nsyms);
      assert EntryIn(data, e) && TableIn(data, e, t);
    }
  }
}
