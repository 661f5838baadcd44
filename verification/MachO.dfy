/** The Mach-O reader of tools/extract_iordma_syms.py: a walk over load commands, a
    nested walk over those of the IORDMAFamily entry, and the symbol and string tables
    they lead to; against writers of the same structures. */
module MachO {
  import opened Words
  import opened Wrappers

  const LC_SYMTAB := 0x2
  const LC_DYSYMTAB := 0xB
  const LC_FILESET_ENTRY := 0x8000_0035

  const IORDMA_NAME: string := "com.apple.iokit.IORDMAFamily"

  /** `Raised` stands for every exception of the script; nothing catches one. */
  datatype Outcome<+T> = Done(value: T) | Raised

  /** A load command found in the file: its number and its offset. */
  datatype Command = Command(cmd: nat, at: nat)

  datatype Entry = Entry(fileoff: nat, ncmds: nat)
  datatype SymbolTable = SymbolTable(symoff: u32, nsyms: u32, stroff: u32, strsize: u32)
  datatype Export = Export(name: string, value: nat)

  // ---------------------------------------------------------------- bytes

  /** struct.unpack_from with a little-endian format of `n` bytes. */
  function Word(data: seq<u8>, at: nat, n: nat): nat
    requires at + n <= |data|
  {
    LeValue(data[at..at + n])
  }

  function Word32(data: seq<u8>, at: nat): u32
    requires at + 4 <= |data|
  {
    assert Pow256(4) == TWO_32;
    Word(data, at, 4)
  }

  /** A Python slice: both bounds are clamped to the length. */
  function Slice(data: seq<u8>, lo: nat, hi: nat): (s: seq<u8>)
    requires lo <= hi
  {
    var h := if hi <= |data| then hi else |data|;
    if lo <= h then data[lo..h] else []
  }

  /** bytes.find of a NUL from index `i`. */
  function NulFrom(s: seq<u8>, i: nat): (r: Option<nat>)
    ensures r.Some? ==> i <= r.value < |s| && s[r.value] == 0 && forall k :: i <= k < r.value ==> s[k] != 0
    ensures r.None? ==> forall k :: i <= k < |s| ==> s[k] != 0
    decreases |s| - i
  {
    if i >= |s| then None else if s[i] == 0 then Some(i) else NulFrom(s, i + 1)
  }

  /** Everything before the first NUL. */
  function CString(s: seq<u8>): seq<u8> {
    match NulFrom(s, 0)
    case Some(k) => s[..k]
    case None => s
  }

  predicate NulFree(s: seq<u8>) {
    forall i :: 0 <= i < |s| ==> s[i] != 0
  }

  /** Bytes that strict UTF-8 decoding accepts (RFC 3629, section 4). */
  predicate Utf8(s: seq<u8>) {
    if s == [] then true
    else if s[0] < 0x80 then Utf8(s[1..])
    else if 0xC2 <= s[0] < 0xE0 then |s| >= 2 && Tail(s[1]) && Utf8(s[2..])
    else if 0xE0 <= s[0] < 0xF0 then
      && |s| >= 3 && Tail(s[1]) && Tail(s[2])
      && (s[0] == 0xE0 ==> s[1] >= 0xA0) && (s[0] == 0xED ==> s[1] < 0xA0) && Utf8(s[3..])
    else if 0xF0 <= s[0] < 0xF5 then
      && |s| >= 4 && Tail(s[1]) && Tail(s[2]) && Tail(s[3])
      && (s[0] == 0xF0 ==> s[1] >= 0x90) && (s[0] == 0xF4 ==> s[1] < 0x90) && Utf8(s[4..])
    else false
  }

  predicate Tail(b: u8) { 0x80 <= b < 0xC0 }

  predicate AsciiOnly(s: seq<u8>) {
    forall i :: 0 <= i < |s| ==> s[i] < 0x80
  }

  /** decode("ascii", errors="replace") */
  function Decoded(s: seq<u8>): (r: string)
    ensures |r| == |s|
  {
    seq(|s|, i requires 0 <= i < |s| => if s[i] < 0x80 then s[i] as char else '\U{FFFD}')
  }

  // ---------------------------------------------------------------- load commands

  /** The commands that a walk of at most `n` steps from `at` visits; it stops early at a
      command of size zero. */
  function Walk(data: seq<u8>, n: nat, at: nat): Outcome<seq<Command>> {
    if n == 0 then Done([])
    else if at + 8 > |data| then Raised
    else
      var size := Word32(data, at + 4);
      if size == 0 then Done([])
      else After([Command(Word32(data, at), at)], Walk(data, n - 1, at + size))
  }

  function After(done: seq<Command>, rest: Outcome<seq<Command>>): Outcome<seq<Command>> {
    match rest
    case Done(cs) => Done(done + cs)
    case Raised => Raised
  }

  /** What one command contributes to the search for the IORDMAFamily entry. */
  function EntryOf(data: seq<u8>, c: Command): Outcome<Option<Entry>> {
    if c.cmd != LC_FILESET_ENTRY then Done(None)
    else if c.at + 28 > |data| then Raised
    else
      var fileoff := Word(data, c.at + 16, 8);
      var start := c.at + Word32(data, c.at + 24);
      var name := CString(Slice(data, start, start + |data|));
      if !Utf8(name) then Raised
      else if !Named(name) then Done(None)
      else if fileoff + 20 > |data| then Raised
      else Done(Some(Entry(fileoff, Word32(data, fileoff + 16))))
  }

  /** The decoded name equals the ASCII constant. */
  predicate Named(name: seq<u8>) {
    |name| == |IORDMA_NAME| && forall i :: 0 <= i < |name| ==> name[i] == IORDMA_NAME[i] as int
  }

  /** What one command contributes to the search for the symbol table; the two words of a
      dynamic symbol table are only printed. */
  function TableOf(data: seq<u8>, c: Command): Outcome<Option<SymbolTable>> {
    if c.cmd != LC_SYMTAB && c.cmd != LC_DYSYMTAB then Done(None)
    else if c.at + 24 > |data| then Raised
    else if c.cmd == LC_DYSYMTAB then Done(None)
    else Done(Some(SymbolTable(Word32(data, c.at + 8), Word32(data, c.at + 12),
                               Word32(data, c.at + 16), Word32(data, c.at + 20))))
  }

  function Entries(data: seq<u8>, cs: seq<Command>): seq<Outcome<Option<Entry>>> {
    seq(|cs|, i requires 0 <= i < |cs| => EntryOf(data, cs[i]))
  }

  function Tables(data: seq<u8>, cs: seq<Command>): seq<Outcome<Option<SymbolTable>>> {
    seq(|cs|, i requires 0 <= i < |cs| => TableOf(data, cs[i]))
  }

  /** The last contribution, unless one raises. */
  function Last<T>(rs: seq<Outcome<Option<T>>>): Outcome<Option<T>> {
    if rs == [] then Done(None)
    else
      var r := rs[|rs| - 1];
      match Last(rs[..|rs| - 1])
      case Raised => Raised
      case Done(before) => if r.Raised? || r.value.Some? then r else Done(before)
  }

  function FindEntry(data: seq<u8>): Outcome<Option<Entry>> {
    if |data| < 20 then Raised
    else
      match Walk(data, Word32(data, 16), 32)
      case Raised => Raised
      case Done(cs) => Last(Entries(data, cs))
  }

  function FindTable(data: seq<u8>, e: Entry): Outcome<Option<SymbolTable>> {
    match Walk(data, e.ncmds, e.fileoff + 32)
    case Raised => Raised
    case Done(cs) => Last(Tables(data, cs))
  }

  lemma {:induction false} LastRaised<T>(rs: seq<Outcome<Option<T>>>, more: seq<Outcome<Option<T>>>)
    requires Last(rs) == Raised
    ensures Last(rs + more) == Raised
    decreases |more|
  {
    if more == [] {
      assert rs + more == rs;
    } else {
      LastRaised(rs, more[..|more| - 1]);
      assert (rs + more)[..|rs + more| - 1] == rs + more[..|more| - 1];
    }
  }

  /** find_iordma: None when there is no entry; otherwise the symbol table, if any. */
  method FindIordma(data: seq<u8>) returns (r: Outcome<Option<Option<SymbolTable>>>)
    ensures r == match FindEntry(data)
                 case Raised => Raised
                 case Done(None) => Done(None)
                 case Done(Some(e)) => (match FindTable(data, e) case Raised => Raised case Done(t) => Done(Some(t)))
  {
    hide LeValue, Word, Utf8, CString, Slice, Named, Last, Entries, FindTable, After;
    if 20 > |data| {
      return Raised;
    }
    var ncmds := Word32(data, 16);
    var entry: Option<Entry> := None;
    var offset: nat := 32;
    var i := 0;
    ghost var done: seq<Command> := [];
    AfterNothing(Walk(data, ncmds, 32));
    NothingFound(data);
    while i < ncmds
      invariant 0 <= i <= ncmds
      invariant Walk(data, ncmds, 32) == After(done, Walk(data, ncmds - i, offset))
      invariant Last(Entries(data, done)) == Done(entry)
    {
      AfterEnd(done);
      if offset + 8 > |data| {
        return Raised;
      }
      var cmd, cmdsize := Word32(data, offset), Word32(data, offset + 4);
      if cmdsize == 0 {
        break;
      }
      ghost var c := Command(cmd, offset);
      EntryStep(data, done, c, Walk(data, ncmds - i - 1, offset + cmdsize));
      if cmd == LC_FILESET_ENTRY {
        if offset + 28 > |data| {
          return Raised;
        }
        var fileoff := Word(data, offset + 16, 8);
        var start := offset + Word32(data, offset + 24);
        var name := CString(Slice(data, start, start + |data|));
        if !Utf8(name) {
          return Raised;
        }
        if Named(name) {
          if fileoff + 20 > |data| {
            return Raised;
          }
          entry := Some(Entry(fileoff, Word32(data, fileoff + 16)));
        }
      }
      done := done + [c];
      offset := offset + cmdsize;
      i := i + 1;
    }
    AfterEnd(done);
    assert FindEntry(data) == Done(entry);
    if entry.None? {
      return Done(None);
    }
    var t := FindSymtab(data, entry.value);
    r := match t case Raised => Raised case Done(table) => Done(Some(table));
  }

  /** The second loop of find_iordma. */
  method FindSymtab(data: seq<u8>, e: Entry) returns (r: Outcome<Option<SymbolTable>>)
    ensures r == FindTable(data, e)
  {
    hide LeValue, Word, Last, Tables, After;
    var offset: nat := e.fileoff + 32;
    var table: Option<SymbolTable> := None;
    var j := 0;
    ghost var done: seq<Command> := [];
    AfterNothing(Walk(data, e.ncmds, offset));
    NothingFound(data);
    while j < e.ncmds
      invariant 0 <= j <= e.ncmds
      invariant Walk(data, e.ncmds, e.fileoff + 32) == After(done, Walk(data, e.ncmds - j, offset))
      invariant Last(Tables(data, done)) == Done(table)
    {
      AfterEnd(done);
      if offset + 8 > |data| {
        return Raised;
      }
      var cmd, cmdsize := Word32(data, offset), Word32(data, offset + 4);
      if cmdsize == 0 {
        break;
      }
      ghost var c := Command(cmd, offset);
      TableStep(data, done, c, Walk(data, e.ncmds - j - 1, offset + cmdsize));
      if cmd == LC_SYMTAB {
        if offset + 24 > |data| {
          return Raised;
        }
        table := Some(SymbolTable(Word32(data, offset + 8), Word32(data, offset + 12),
                                  Word32(data, offset + 16), Word32(data, offset + 20)));
      } else if cmd == LC_DYSYMTAB {
        if offset + 24 > |data| {
          return Raised;
        }
      }
      done := done + [c];
      offset := offset + cmdsize;
      j := j + 1;
    }
    AfterEnd(done);
    r := Done(table);
  }

  /** One more command: the walk goes on behind it, and if it raises, so does the search. */
  lemma EntryStep(data: seq<u8>, done: seq<Command>, c: Command, rest: Outcome<seq<Command>>)
    requires Last(Entries(data, done)).Done?
    ensures After(done, After([c], rest)) == After(done + [c], rest)
    ensures Entries(data, done + [c]) == Entries(data, done) + [EntryOf(data, c)]
    ensures Last(Entries(data, done + [c])) ==
              if EntryOf(data, c).Raised? || EntryOf(data, c).value.Some?
                then EntryOf(data, c) else Last(Entries(data, done))
    ensures EntryOf(data, c).Raised? ==>
              After(done + [c], rest).Raised? || Last(Entries(data, After(done + [c], rest).value)) == Raised
  {
    hide EntryOf;
    AfterAfter(done, c, rest);
    var rs, r := Entries(data, done), EntryOf(data, c);
    assert Entries(data, done + [c]) == rs + [r];
    assert (rs + [r])[..|rs|] == rs;
    if r.Raised? && rest.Done? {
      LastRaised(rs + [r], Entries(data, rest.value));
      assert Entries(data, done + [c] + rest.value) == rs + [r] + Entries(data, rest.value);
    }
  }

  lemma TableStep(data: seq<u8>, done: seq<Command>, c: Command, rest: Outcome<seq<Command>>)
    requires Last(Tables(data, done)).Done?
    ensures After(done, After([c], rest)) == After(done + [c], rest)
    ensures Last(Tables(data, done + [c])) ==
              if TableOf(data, c).Raised? || TableOf(data, c).value.Some?
                then TableOf(data, c) else Last(Tables(data, done))
    ensures TableOf(data, c).Raised? ==>
              After(done + [c], rest).Raised? || Last(Tables(data, After(done + [c], rest).value)) == Raised
  {
    hide TableOf;
    AfterAfter(done, c, rest);
    var rs, r := Tables(data, done), TableOf(data, c);
    assert Tables(data, done + [c]) == rs + [r];
    assert (rs + [r])[..|rs|] == rs;
    if r.Raised? && rest.Done? {
      LastRaised(rs + [r], Tables(data, rest.value));
      assert Tables(data, done + [c] + rest.value) == rs + [r] + Tables(data, rest.value);
    }
  }

  lemma AfterNothing(rest: Outcome<seq<Command>>)
    ensures After([], rest) == rest
  {
    if rest.Done? {
      assert [] + rest.value == rest.value;
    }
  }

  lemma AfterEnd(done: seq<Command>)
    ensures After(done, Done([])) == Done(done) && After(done, Raised) == Raised
  {
    assert done + [] == done;
  }

  lemma NothingFound(data: seq<u8>)
    ensures Last(Entries(data, [])) == Done(None) && Last(Tables(data, [])) == Done(None)
  {
  }

  lemma AfterAfter(done: seq<Command>, c: Command, rest: Outcome<seq<Command>>)
    ensures After(done, After([c], rest)) == After(done + [c], rest)
  {
    if rest.Done? {
      assert done + ([c] + rest.value) == done + [c] + rest.value;
    }
  }

  // ---------------------------------------------------------------- symbols

  /** The string at `strx` of the string table; empty if no NUL follows. */
  function NameIn(strtab: seq<u8>, strx: nat): seq<u8> {
    match NulFrom(strtab, strx)
    case Some(k) => strtab[strx..k]
    case None => []
  }

  /** The export of symbol `j`, if it is external, named and defined. */
  function Kept(data: seq<u8>, t: SymbolTable, j: nat): seq<Export>
    requires t.symoff + j * 16 + 16 <= |data|
  {
    var so := t.symoff + j * 16;
    var name := NameIn(Slice(data, t.stroff, t.stroff + t.strsize), Word32(data, so));
    if data[so + 4] % 2 == 1 && name != [] && data[so + 5] != 0
      then [Export(Decoded(name), Word(data, so + 8, 8))] else []
  }

  /** The exports among the first `n` symbols that lie inside the file. */
  function Exports(data: seq<u8>, t: SymbolTable, n: nat): seq<Export> {
    if n == 0 then []
    else Exports(data, t, n - 1) + (if t.symoff + (n - 1) * 16 + 16 <= |data| then Kept(data, t, n - 1) else [])
  }

  lemma {:induction false} NothingBeyond(data: seq<u8>, t: SymbolTable, j: nat, n: nat)
    requires j <= n && t.symoff + j * 16 + 16 > |data|
    ensures Exports(data, t, n) == Exports(data, t, j)
    decreases n
  {
    if j < n {
      NothingBeyond(data, t, j, n - 1);
    }
  }

  /** parse_symbols: without a symbol table the subscript raises. */
  method ParseSymbols(data: seq<u8>, symtab: Option<SymbolTable>) returns (r: Outcome<seq<Export>>)
    ensures r == match symtab case None => Raised case Some(t) => Done(Exports(data, t, t.nsyms))
  {
    hide LeValue, NameIn, Decoded, Slice;
    if symtab.None? {
      return Raised;
    }
    var t := symtab.value;
    var strtab := Slice(data, t.stroff, t.stroff + t.strsize);
    var exported: seq<Export> := [];
    var j: nat := 0;
    while j < t.nsyms
      invariant 0 <= j <= t.nsyms
      invariant exported == Exports(data, t, j)
    {
      var so := t.symoff + j * 16;
      if so + 16 > |data| {
        NothingBeyond(data, t, j, t.nsyms);
        break;
      }
      var strx, typ, value := Word32(data, so), data[so + 4], Word(data, so + 8, 8);
      var name := NameIn(strtab, strx);
      ghost var before := exported;
      if typ % 2 == 1 && name != [] {
        var sect := data[so + 5];
        if sect != 0 {
          exported := exported + [Export(Decoded(name), value)];
        }
      }
      assert exported == before + Kept(data, t, j);
      j := j + 1;
    }
    assert exported == Exports(data, t, t.nsyms);
    r := Done(exported);
  }

  /** What the script extracts from a file. */
  function Extraction(data: seq<u8>): Outcome<Option<seq<Export>>> {
    match FindEntry(data)
    case Raised => Raised
    case Done(None) => Done(None)
    case Done(Some(e)) =>
      match FindTable(data, e)
      case Raised | Done(None) => Raised
      case Done(Some(t)) => Done(Some(Exports(data, t, t.nsyms)))
  }

  method Extract(data: seq<u8>) returns (r: Outcome<Option<seq<Export>>>)
    ensures r == Extraction(data)
  {
    hide FindEntry, FindTable, Exports;
    var found := FindIordma(data);
    match found {
      case Raised => r := Raised;
      case Done(None) => r := Done(None);
      case Done(Some(symtab)) =>
        var parsed := ParseSymbols(data, symtab);
        r := match parsed case Raised => Raised case Done(exported) => Done(Some(exported));
    }
  }

  // ---------------------------------------------------------------- writers

  /** A load command as a linker writes it. */
  datatype LoadCommand =
    | FilesetEntry(vmaddr: u64, fileoff: u64, name: seq<u8>, pad: nat)
    | Symtab(table: SymbolTable)
    | Dysymtab(words: seq<u8>)
    | Other(cmd: u32, payload: seq<u8>)

  function Number(c: LoadCommand): u32 {
    match c
    case FilesetEntry(_, _, _, _) => LC_FILESET_ENTRY
    case Symtab(_) => LC_SYMTAB
    case Dysymtab(_) => LC_DYSYMTAB
    case Other(cmd, _) => cmd
  }

  function Body(c: LoadCommand): seq<u8> {
    match c
    case FilesetEntry(vmaddr, fileoff, name, pad) =>
      LeBytes(vmaddr, 8) + LeBytes(fileoff, 8) + LeBytes(32, 4) + Zeros(4) + name + Zeros(1 + pad)
    case Symtab(t) => LeBytes(t.symoff, 4) + LeBytes(t.nsyms, 4) + LeBytes(t.stroff, 4) + LeBytes(t.strsize, 4)
    case Dysymtab(words) => words
    case Other(_, payload) => payload
  }

  predicate Writable(c: LoadCommand) {
    && 8 + |Body(c)| < TWO_32
    && (c.FilesetEntry? ==> NulFree(c.name) && Utf8(c.name))
    && (c.Dysymtab? ==> |c.words| >= 16)
    && (c.Other? ==> c.cmd != LC_FILESET_ENTRY && c.cmd != LC_SYMTAB && c.cmd != LC_DYSYMTAB)
  }

  function WriteCommand(c: LoadCommand): (bs: seq<u8>)
    ensures |bs| == 8 + |Body(c)|
  {
    LeBytes(Number(c), 4) + LeBytes(8 + |Body(c)|, 4) + Body(c)
  }

  function WriteAll(cs: seq<LoadCommand>): seq<u8> {
    if cs == [] then [] else WriteCommand(cs[0]) + WriteAll(cs[1..])
  }

  /** Where a walk meets the commands of `cs` written from `at`. */
  function Placed(cs: seq<LoadCommand>, at: nat): (r: seq<Command>)
    ensures |r| == |cs|
  {
    if cs == [] then [] else [Command(Number(cs[0]), at)] + Placed(cs[1..], at + |WriteCommand(cs[0])|)
  }

  datatype Symbol = Symbol(name: seq<u8>, strx: u32, typ: u8, sect: u8, desc: u16, value: u64)

  /** struct nlist_64 */
  function WriteSymbol(s: Symbol): (bs: seq<u8>)
    ensures |bs| == 16
  {
    LeBytes(s.strx, 4) + [s.typ, s.sect] + LeBytes(s.desc, 2) + LeBytes(s.value, 8)
  }

  function WriteSymbols(ss: seq<Symbol>): (bs: seq<u8>)
    ensures |bs| == 16 * |ss|
  {
    if ss == [] then [] else WriteSymbols(ss[..|ss| - 1]) + WriteSymbol(ss[|ss| - 1])
  }

  /** The external, named, defined symbols, in table order. */
  function Wanted(ss: seq<Symbol>): seq<Export> {
    if ss == [] then []
    else
      var s := ss[|ss| - 1];
      Wanted(ss[..|ss| - 1]) + (if s.typ % 2 == 1 && s.name != []
        && s.sect != 0 then [Export(Decoded(s.name), s.value)] else [])
  }

  // ---------------------------------------------------------------- well-formed files

  predicate Holds(data: seq<u8>, at: nat, bs: seq<u8>) {
    at + |bs| <= |data| && data[at..at + |bs|] == bs
  }

  /** `name`, followed by a NUL, stands at `strx`. */
  predicate Stored(strtab: seq<u8>, strx: nat, name: seq<u8>) {
    NulFree(name) && strx + |name| < |strtab| && strtab[strx..strx + |name|] == name && strtab[strx + |name|] == 0
  }

  datatype Image = Image(top: seq<LoadCommand>, kext: seq<LoadCommand>, symbols: seq<Symbol>, strtab: seq<u8>)

  predicate IsIordma(c: LoadCommand) { c.FilesetEntry? && Named(c.name) }

  /** The parts of `img` as commands of each other: entry `i` of the file leads to the
      kext, whose command `k` leads to its tables; neither is followed by another such. */
  predicate Linked(img: Image, i: nat, k: nat) {
    && i < |img.top| < TWO_32 && k < |img.kext| < TWO_32
    && (forall j :: 0 <= j < |img.top| ==> Writable(img.top[j]))
    && (forall j :: 0 <= j < |img.kext| ==> Writable(img.kext[j]))
    && IsIordma(img.top[i]) && (forall j :: i < j < |img.top| ==> !IsIordma(img.top[j]))
    && img.kext[k].Symtab? && (forall j :: k < j < |img.kext| ==> !img.kext[j].Symtab?)
    && img.kext[k].table.nsyms == |img.symbols| && img.kext[k].table.strsize == |img.strtab|
    && (forall j :: 0 <= j < |img.symbols| ==> Stored(img.strtab, img.symbols[j].strx, img.symbols[j].name))
  }

  /** `data` holds every part of `img` where the commands say, in any arrangement. */
  predicate Describes(data: seq<u8>, img: Image, i: nat, k: nat)
    requires Linked(img, i, k)
  {
    var at, t := img.top[i].fileoff, img.kext[k].table;
    && Holds(data, 16, LeBytes(|img.top|, 4)) && Holds(data, 32, WriteAll(img.top))
    && (forall j :: 0 <= j < i && IsIordma(img.top[j]) ==> img.top[j].fileoff + 20 <= |data|)
    && Holds(data, at + 16, LeBytes(|img.kext|, 4)) && Holds(data, at + 32, WriteAll(img.kext))
    && Holds(data, t.symoff, WriteSymbols(img.symbols)) && Holds(data, t.stroff, img.strtab)
  }

  // ---------------------------------------------------------------- the reader undoes the writers

  lemma HoldsPart(data: seq<u8>, at: nat, a: seq<u8>, b: seq<u8>)
    requires Holds(data, at, a + b)
    ensures Holds(data, at, a) && Holds(data, at + |a|, b)
  {
    SliceOfSlice(data, at, at + |a + b|, 0, |a|);
    SliceOfSlice(data, at, at + |a + b|, |a|, |a| + |b|);
    assert (a + b)[0..|a|] == a && (a + b)[|a|..|a| + |b|] == b;
  }

  lemma Reads32(data: seq<u8>, at: nat, v: u32)
    requires Holds(data, at, LeBytes(v, 4))
    ensures Word32(data, at) == v
  {
    hide LeBytes, LeValue;
    assert Pow256(4) == TWO_32;
    LoadStore(v, 4);
  }

  lemma Reads64(data: seq<u8>, at: nat, v: u64)
    requires Holds(data, at, LeBytes(v, 8))
    ensures Word(data, at, 8) == v
  {
    hide LeBytes, LeValue;
    assert Pow256(8) == TWO_64;
    LoadStore(v, 8);
  }

  /** The words of a written command. */
  lemma CommandReads(data: seq<u8>, c: LoadCommand, at: nat)
    requires Writable(c) && Holds(data, at, WriteCommand(c))
    ensures at + 8 <= |data| && Word32(data, at) == Number(c) && Word32(data, at + 4) == |WriteCommand(c)|
    ensures Holds(data, at + 8, Body(c))
  {
    hide LeBytes, Word32, Body, Holds;
    var a, b := LeBytes(Number(c), 4), LeBytes(8 + |Body(c)|, 4);
    HoldsPart(data, at, a + b, Body(c));
    HoldsPart(data, at, a, b);
    Reads32(data, at, Number(c));
    Reads32(data, at + 4, 8 + |Body(c)|);
    assert at + 8 <= |data| by { HoldsFits(data, at + 8, Body(c)); }
  }

  lemma HoldsFits(data: seq<u8>, at: nat, bs: seq<u8>)
    requires Holds(data, at, bs)
    ensures at + |bs| <= |data|
  {
  }

  /** A walk over written commands finds each of them. */
  lemma {:induction false} WalkWritten(data: seq<u8>, cs: seq<LoadCommand>, at: nat)
    requires forall j :: 0 <= j < |cs| ==> Writable(cs[j])
    requires Holds(data, at, WriteAll(cs))
    ensures Walk(data, |cs|, at) == Done(Placed(cs, at))
    decreases |cs|
  {
    hide Word32, WriteCommand, Body, Writable, Number, Holds;
    if cs != [] {
      var c, rest := cs[0], cs[1..];
      HoldsPart(data, at, WriteCommand(c), WriteAll(rest));
      CommandReads(data, c, at);
      assert |WriteCommand(c)| >= 8;
      WalkWritten(data, rest, at + |WriteCommand(c)|);
      assert Walk(data, |cs|, at) == After([Command(Number(c), at)], Walk(data, |rest|, at + |WriteCommand(c)|));
    }
  }

  /** The command met there is the one written. */
  lemma {:induction false} PlacedHolds(data: seq<u8>, cs: seq<LoadCommand>, at: nat, j: nat)
    requires j < |cs| && Holds(data, at, WriteAll(cs))
    ensures Placed(cs, at)[j].cmd == Number(cs[j]) && Holds(data, Placed(cs, at)[j].at, WriteCommand(cs[j]))
    decreases j
  {
    hide WriteCommand, Body, Number, Holds;
    HoldsPart(data, at, WriteCommand(cs[0]), WriteAll(cs[1..]));
    if j > 0 {
      PlacedHolds(data, cs[1..], at + |WriteCommand(cs[0])|, j - 1);
    }
  }

  /** A NUL-free string followed by a NUL is read back whole. */
  lemma CStringReads(data: seq<u8>, start: nat, name: seq<u8>, pad: nat)
    requires NulFree(name) && Holds(data, start, name) && Holds(data, start + |name|, Zeros(1 + pad))
    ensures CString(Slice(data, start, start + |data|)) == name
  {
    var s := Slice(data, start, start + |data|);
    assert s == data[start..];
    assert s[..|name|] == name;
    assert s[|name|] == 0 by {
      assert data[start + |name|..start + |name| + (1 + pad)] == Zeros(1 + pad);
      assert s[|name|] == data[start + |name|..start + |name| + (1 + pad)][0];
    }
    forall k | 0 <= k < |name|
      ensures s[k] != 0
    {
      assert s[k] == name[k];
    }
  }

  lemma EntryFields(data: seq<u8>, c: LoadCommand, at: nat)
    requires c.FilesetEntry? && Holds(data, at + 8, Body(c))
    ensures at + 28 <= |data| && Word(data, at + 16, 8) == c.fileoff && Word32(data, at + 24) == 32
    ensures Holds(data, at + 32, c.name) && Holds(data, at + 32 + |c.name|, Zeros(1 + c.pad))
  {
    hide LeBytes, Word32, Word, Holds, Zeros;
    var a, b, d, z := LeBytes(c.vmaddr, 8), LeBytes(c.fileoff, 8), LeBytes(32, 4), Zeros(4);
    HoldsPart(data, at + 8, a + b + d + z + c.name, Zeros(1 + c.pad));
    HoldsPart(data, at + 8, a + b + d + z, c.name);
    HoldsPart(data, at + 8, a + b + d, z);
    HoldsPart(data, at + 8, a + b, d);
    HoldsPart(data, at + 8, a, b);
    HoldsFits(data, at + 24, d);
    Reads64(data, at + 16, c.fileoff);
    Reads32(data, at + 24, 32);
  }

  /** What the search for the entry reads in a written command. */
  lemma EntryReads(data: seq<u8>, c: LoadCommand, at: nat)
    requires Writable(c) && Holds(data, at, WriteCommand(c))
    ensures !IsIordma(c) ==> EntryOf(data, Command(Number(c), at)) == Done(None)
    ensures IsIordma(c) && c.fileoff + 20 <= |data| ==>
              EntryOf(data, Command(Number(c), at)) == Done(Some(Entry(c.fileoff, Word32(data, c.fileoff + 16))))
  {
    hide LeBytes, LeValue, Word, Word32, Holds, Zeros, CString, Slice, Utf8, NulFree, Body, WriteCommand;
    if c.FilesetEntry? {
      CommandReads(data, c, at);
      EntryFields(data, c, at);
      CStringReads(data, at + 32, c.name, c.pad);
    }
  }

  /** What the search for the symbol table reads in a written command. */
  lemma TableReads(data: seq<u8>, c: LoadCommand, at: nat)
    requires Writable(c) && Holds(data, at, WriteCommand(c))
    ensures TableOf(data, Command(Number(c), at)) == Done(if c.Symtab? then Some(c.table) else None)
  {
    hide LeBytes, LeValue, Word, Word32, Holds, Zeros, WriteCommand, NulFree, Utf8;
    CommandReads(data, c, at);
    HoldsFits(data, at + 8, Body(c));
    if c.Symtab? {
      var t := c.table;
      var a, b, d, e := LeBytes(t.symoff, 4), LeBytes(t.nsyms, 4), LeBytes(t.stroff, 4), LeBytes(t.strsize, 4);
      HoldsPart(data, at + 8, a + b + d, e);
      HoldsPart(data, at + 8, a + b, d);
      HoldsPart(data, at + 8, a, b);
      Reads32(data, at + 8, t.symoff);
      Reads32(data, at + 12, t.nsyms);
      Reads32(data, at + 16, t.stroff);
      Reads32(data, at + 20, t.strsize);
    }
  }

  /** A contribution without a later one is the result. */
  lemma {:induction false} LastIs<T>(rs: seq<Outcome<Option<T>>>, i: nat)
    requires i < |rs| && rs[i].Done? && rs[i].value.Some?
    requires forall j :: 0 <= j < i ==> rs[j].Done?
    requires forall j :: i < j < |rs| ==> rs[j] == Done(None)
    ensures Last(rs) == rs[i]
    decreases |rs|
  {
    var front := rs[..|rs| - 1];
    if i == |rs| - 1 {
      LastDone(front);
    } else {
      LastIs(front, i);
    }
  }

  lemma {:induction false} LastDone<T>(rs: seq<Outcome<Option<T>>>)
    requires forall j :: 0 <= j < |rs| ==> rs[j].Done?
    ensures Last(rs).Done?
    decreases |rs|
  {
    if rs != [] {
      LastDone(rs[..|rs| - 1]);
    }
  }

  /** The first walk finds the entry. */
  lemma EntryFound(data: seq<u8>, img: Image, i: nat, k: nat)
    requires Linked(img, i, k) && Describes(data, img, i, k)
    ensures FindEntry(data) == Done(Some(Entry(img.top[i].fileoff, |img.kext|)))
  {
    hide LeBytes, LeValue, Word, Word32, WriteCommand, Body, WriteAll, WriteSymbols, Writable, Stored, EntryOf,
         Named, Walk, Last, Placed;
    var at: nat := img.top[i].fileoff;
    var cs := Placed(img.top, 32);
    Reads32(data, 16, |img.top|);
    Reads32(data, at + 16, |img.kext|);
    WalkWritten(data, img.top, 32);
    var rs := Entries(data, cs);
    forall j | 0 <= j < |img.top|
      ensures j < i ==> rs[j].Done?
      ensures j == i ==> rs[j] == Done(Some(Entry(at, |img.kext|)))
      ensures j > i ==> rs[j] == Done(None)
    {
      PlacedHolds(data, img.top, 32, j);
      EntryReads(data, img.top[j], cs[j].at);
      assert cs[j] == Command(Number(img.top[j]), cs[j].at);
    }
    LastIs(rs, i);
  }

  /** The second walk finds the symbol table. */
  lemma TableFound(data: seq<u8>, img: Image, i: nat, k: nat)
    requires Linked(img, i, k) && Describes(data, img, i, k)
    ensures FindTable(data, Entry(img.top[i].fileoff, |img.kext|)) == Done(Some(img.kext[k].table))
  {
    hide LeBytes, LeValue, Word, Word32, WriteCommand, Body, WriteAll, WriteSymbols, Writable, Stored, TableOf,
         Named, Walk, Last, Placed, Holds;
    var at := img.top[i].fileoff + 32;
    var cs := Placed(img.kext, at);
    WalkWritten(data, img.kext, at);
    var rs := Tables(data, cs);
    forall j | 0 <= j < |img.kext|
      ensures rs[j] == Done(if img.kext[j].Symtab? then Some(img.kext[j].table) else None)
    {
      PlacedHolds(data, img.kext, at, j);
      TableReads(data, img.kext[j], cs[j].at);
      assert cs[j] == Command(Number(img.kext[j]), cs[j].at);
    }
    LastIs(rs, k);
  }

  lemma {:induction false} SymbolHeld(data: seq<u8>, at: nat, ss: seq<Symbol>, j: nat)
    requires j < |ss| && Holds(data, at, WriteSymbols(ss))
    ensures Holds(data, at + 16 * j, WriteSymbol(ss[j]))
    decreases |ss|
  {
    hide Holds, WriteSymbol;
    HoldsPart(data, at, WriteSymbols(ss[..|ss| - 1]), WriteSymbol(ss[|ss| - 1]));
    if j < |ss| - 1 {
      SymbolHeld(data, at, ss[..|ss| - 1], j);
    }
  }

  /** The fields of a written symbol. */
  lemma SymbolReads(data: seq<u8>, at: nat, s: Symbol)
    requires Holds(data, at, WriteSymbol(s))
    ensures at + 16 <= |data| && Word32(data, at) == s.strx && Word(data, at + 8, 8) == s.value
    ensures data[at + 4] == s.typ && data[at + 5] == s.sect
  {
    hide LeBytes, LeValue, Word, Word32;
    var a, b, c, d := LeBytes(s.strx, 4), [s.typ, s.sect], LeBytes(s.desc, 2), LeBytes(s.value, 8);
    HoldsPart(data, at, a + b + c, d);
    HoldsPart(data, at, a + b, c);
    HoldsPart(data, at, a, b);
    Reads32(data, at, s.strx);
    Reads64(data, at + 8, s.value);
    assert data[at + 4..at + 6] == b;
    assert data[at + 4] == data[at + 4..at + 6][0] && data[at + 5] == data[at + 4..at + 6][1];
  }

  lemma NameReads(strtab: seq<u8>, strx: nat, name: seq<u8>)
    requires Stored(strtab, strx, name)
    ensures NameIn(strtab, strx) == name
  {
    forall k | strx <= k < strx + |name|
      ensures strtab[k] != 0
    {
      assert strtab[k] == strtab[strx..strx + |name|][k - strx] == name[k - strx];
    }
  }

  /** The symbol loop yields the wanted symbols. */
  lemma {:induction false} ExportsWanted(data: seq<u8>, t: SymbolTable, strtab: seq<u8>, ss: seq<Symbol>, n: nat)
    requires n <= |ss| && Holds(data, t.symoff, WriteSymbols(ss))
    requires Slice(data, t.stroff, t.stroff + t.strsize) == strtab
    requires forall j :: 0 <= j < |ss| ==> Stored(strtab, ss[j].strx, ss[j].name)
    ensures Exports(data, t, n) == Wanted(ss[..n])
    decreases n
  {
    hide LeValue, Word, Word32, WriteSymbols, WriteSymbol, Holds, Stored, NameIn, Decoded, Slice;
    if n != 0 {
      var s := ss[n - 1];
      ExportsWanted(data, t, strtab, ss, n - 1);
      SymbolHeld(data, t.symoff, ss, n - 1);
      SymbolReads(data, t.symoff + 16 * (n - 1), s);
      NameReads(strtab, s.strx, s.name);
      assert ss[..n][..n - 1] == ss[..n - 1];
    }
  }

  /** On every file that holds a linked image, in whatever arrangement, the script
      extracts exactly the external, defined and named symbols, in table order. */
  lemma ExtractionExact(data: seq<u8>, img: Image, i: nat, k: nat)
    requires Linked(img, i, k) && Describes(data, img, i, k)
    ensures Extraction(data) == Done(Some(Wanted(img.symbols)))
  {
    hide FindEntry, FindTable, Exports, Wanted, WriteAll, WriteSymbols, LeBytes, Stored, Writable;
    var t := img.kext[k].table;
    EntryFound(data, img, i, k);
    TableFound(data, img, i, k);
    assert Slice(data, t.stroff, t.stroff + t.strsize) == img.strtab;
    ExportsWanted(data, t, img.strtab, img.symbols, |img.symbols|);
    assert img.symbols[..|img.symbols|] == img.symbols;
  }

  // ---------------------------------------------------------------- one arrangement

  /** The parts one after the other, each header as far as the script reads it. */
  function Write(img: Image): seq<u8> {
    Zeros(16) + LeBytes(|img.top|, 4) + Zeros(12) + WriteAll(img.top) +
    Zeros(16) + LeBytes(|img.kext|, 4) + Zeros(12) + WriteAll(img.kext) +
    WriteSymbols(img.symbols) + img.strtab
  }

  /** The offsets in the commands are those of `Write`. */
  predicate LaidOut(img: Image, i: nat, k: nat)
    requires Linked(img, i, k)
  {
    && img.top[i].fileoff == 32 + |WriteAll(img.top)|
    && img.kext[k].table.symoff == img.top[i].fileoff + 32 + |WriteAll(img.kext)|
    && img.kext[k].table.stroff == img.kext[k].table.symoff + 16 * |img.symbols|
    && forall j :: 0 <= j < i && IsIordma(img.top[j]) ==> img.top[j].fileoff + 20 <= |Write(img)|
  }

  lemma WrittenDescribes(img: Image, i: nat, k: nat)
    requires Linked(img, i, k) && LaidOut(img, i, k)
    ensures Describes(Write(img), img, i, k)
  {
    hide WriteAll, WriteSymbols, LeBytes, Zeros, Writable, Stored, Named, Holds;
    var data := Write(img);
    var a, b, c, d := Zeros(16), LeBytes(|img.top|, 4), Zeros(12), WriteAll(img.top);
    var e, f, g, h := Zeros(16), LeBytes(|img.kext|, 4), Zeros(12), WriteAll(img.kext);
    var m := WriteSymbols(img.symbols);
    HoldsAll(data);
    HoldsPart(data, 0, a + b + c + d + e + f + g + h + m, img.strtab);
    HoldsPart(data, 0, a + b + c + d + e + f + g + h, m);
    HoldsPart(data, 0, a + b + c + d + e + f + g, h);
    HoldsPart(data, 0, a + b + c + d + e + f, g);
    HoldsPart(data, 0, a + b + c + d + e, f);
    HoldsPart(data, 0, a + b + c + d, e);
    HoldsPart(data, 0, a + b + c, d);
    HoldsPart(data, 0, a + b, c);
    HoldsPart(data, 0, a, b);
  }

  lemma HoldsAll(data: seq<u8>)
    ensures Holds(data, 0, data)
  {
  }

  /** Reading a written image gives back its external, named, defined symbols. */
  lemma ExtractionUndoesWriter(img: Image, i: nat, k: nat)
    requires Linked(img, i, k) && LaidOut(img, i, k)
    ensures Extraction(Write(img)) == Done(Some(Wanted(img.symbols)))
  {
    hide *;
    WrittenDescribes(img, i, k);
    ExtractionExact(Write(img), img, i, k);
  }

  /** A string table of NUL-terminated names behind an empty one. */
  function StringTable(names: seq<seq<u8>>): seq<u8> {
    if names == [] then [0] else StringTable(names[..|names| - 1]) + names[|names| - 1] + [0]
  }

  /** Every NUL-free name is stored at the length of the table before it. */
  lemma {:induction false} StringTableStores(names: seq<seq<u8>>, j: nat)
    requires j < |names| && NulFree(names[j])
    ensures Stored(StringTable(names), |StringTable(names[..j])|, names[j])
    decreases |names|
  {
    var n := |names| - 1;
    var front, last := StringTable(names[..n]), names[n];
    if j < n {
      StringTableStores(names[..n], j);
      assert names[..n][..j] == names[..j];
      StoredPrefix(front, last + [0], |StringTable(names[..j])|, names[j]);
      assert front + (last + [0]) == front + last + [0];
    } else {
      assert (front + last + [0])[|front|..|front| + |last|] == last;
    }
  }

  lemma StoredPrefix(strtab: seq<u8>, more: seq<u8>, strx: nat, name: seq<u8>)
    requires Stored(strtab, strx, name)
    ensures Stored(strtab + more, strx, name)
  {
    assert (strtab + more)[strx..strx + |name|] == strtab[strx..strx + |name|];
  }

  // ---------------------------------------------------------------- names

  function Encoded(name: string): seq<u8> {
    seq(|name|, i requires 0 <= i < |name| => if (name[i] as int) < 0x80 then name[i] as int else 0)
  }

  /** The names and values of a list of exports, as bytes. */
  function Listed(es: seq<Export>): seq<(seq<u8>, nat)> {
    seq(|es|, i requires 0 <= i < |es| => (Encoded(es[i].name), es[i].value))
  }

  /** The names and values of the external, named, defined symbols, in table order. */
  function WantedBytes(ss: seq<Symbol>): seq<(seq<u8>, nat)> {
    if ss == [] then []
    else
      var s := ss[|ss| - 1];
      WantedBytes(ss[..|ss| - 1]) + (if s.typ % 2 == 1 && s.name != [] && s.sect != 0 then [(s.name, s.value)] else [])
  }

  lemma AsciiNameKept(name: seq<u8>)
    requires AsciiOnly(name)
    ensures Encoded(Decoded(name)) == name
  {
  }

  lemma {:induction false} WantedNames(ss: seq<Symbol>)
    requires forall j :: 0 <= j < |ss| ==> AsciiOnly(ss[j].name)
    ensures Listed(Wanted(ss)) == WantedBytes(ss)
    decreases |ss|
  {
    hide Encoded, Decoded, AsciiOnly;
    if ss != [] {
      var front, s := ss[..|ss| - 1], ss[|ss| - 1];
      WantedNames(front);
      AsciiNameKept(s.name);
      assert Wanted(ss)[..|Wanted(front)|] == Wanted(front);
    }
  }

  /** With ASCII names nothing of a name is lost: the script's output determines the
      name bytes and values of exactly the wanted symbols. */
  lemma AsciiExtractionExact(data: seq<u8>, img: Image, i: nat, k: nat)
    requires Linked(img, i, k) && Describes(data, img, i, k)
    requires forall j :: 0 <= j < |img.symbols| ==> AsciiOnly(img.symbols[j].name)
    ensures var r := Extraction(data);
            r.Done? && r.value.Some? && Listed(r.value.value) == WantedBytes(img.symbols)
  {
    hide Extraction, Linked, Describes, Listed, WantedBytes, Wanted, AsciiOnly;
    ExtractionExact(data, img, i, k);
    WantedNames(img.symbols);
  }
}
