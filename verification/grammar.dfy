/** The NAR format: trees, the recursive grammar that prints them, and the flat
    event sequence that the streaming code exchanges. */
module Grammar {
  import opened Wire

  /** A tree over a type `B` of strings: `bytes` for plain trees, `Blob` for concrete syntax. */
  datatype Node<B> =
    | Regular(executable: bool, contents: B)
    | Symlink(target: B)
    | Directory(entries: Entries<B>)
  datatype Entries<B> = Nil | Entry(name: B, node: Node<B>, rest: Entries<B>)

  /** A length-prefixed string as it stands on the wire: the declared length and the
      aligned run of bytes that follows. The padding bytes are not constrained. */
  datatype Blob = Blob(len: u64, raw: bytes) {
    predicate Ok() { |raw| == CalcAligned(len) }
    /** Does the run of bytes hold the declared string? */
    predicate Proper() { Ok() && len <= MAX_LEN }
    function Data(): bytes requires Proper() { raw[..len] }
    function Print(): bytes { LE64(len) + raw }
  }

  predicate Fits(b: bytes) { |b| <= MAX_LEN }

  function Pack(b: bytes): (r: Blob)
    requires Fits(b)
    ensures r.Proper() && r.Data() == b && forall i | |b| <= i < |r.raw| :: r.raw[i] == 0
  {
    Blob(|b|, b + Zeros(CalcPadding(|b|)))
  }

  function Ascii(s: string): (r: bytes)
    ensures |r| == |s| && forall i | 0 <= i < |s| && s[i] as int < 128 :: r[i] == s[i] as int
  {
    seq(|s|, i requires 0 <= i < |s| => s[i] as int % 128)
  }

  function Str(s: string): bytes
    requires |s| <= MAX_LEN
  {
    Pack(Ascii(s)).Print()
  }

  // ---------- the grammar ----------

  function PrintRoot(n: Node<Blob>): bytes { Str("nix-archive-1") + PrintNode(n) }

  function PrintNode(n: Node<Blob>): bytes
    decreases n, 0
  {
    Str("(") + Str("type") +
    (match n
     case Regular(x, c) =>
       Str("regular") + (if x then Str("executable") + Str("") else []) + Str("contents") + c.Print()
     case Symlink(t) => Str("symlink") + Str("target") + t.Print()
     case Directory(es) => Str("directory") + PrintEntries(es)) +
    Str(")")
  }

  function PrintEntries(es: Entries<Blob>): bytes
    decreases es, 0
  {
    match es
    case Nil => []
    case Entry(name, node, rest) => PrintEntry(name, node) + PrintEntries(rest)
  }

  function PrintEntry(name: Blob, node: Node<Blob>): bytes
    decreases node, 1
  {
    Str("entry") + Str("(") + Str("name") + name.Print() + Str("node") + PrintNode(node) + Str(")")
  }

  /** Every string is followed by its aligned run of bytes. With `proper`, moreover, no
      declared length is so close to 2^64 that its alignment wraps to zero. */
  predicate WellFormed(n: Node<Blob>, proper: bool)
    decreases n
  {
    match n
    case Regular(_, c) => c.Ok() && (proper ==> c.Proper())
    case Symlink(t) => t.Ok() && (proper ==> t.Proper())
    case Directory(es) => WellFormedEntries(es, proper)
  }

  predicate WellFormedEntries(es: Entries<Blob>, proper: bool)
    decreases es
  {
    match es
    case Nil => true
    case Entry(name, node, rest) =>
      name.Ok() && (proper ==> name.Proper()) && WellFormed(node, proper) && WellFormedEntries(rest, proper)
  }

  lemma {:induction false} Weaken(n: Node<Blob>)
    requires WellFormed(n, true)
    ensures WellFormed(n, false)
    decreases n
  {
    match n
    case Directory(es) => WeakenEntries(es);
    case _ =>
  }

  lemma {:induction false} WeakenEntries(es: Entries<Blob>)
    requires WellFormedEntries(es, true)
    ensures WellFormedEntries(es, false)
    decreases es
  {
    match es
    case Nil =>
    case Entry(_, node, rest) => Weaken(node); WeakenEntries(rest);
  }

  /** The grammar derives `s`, with the code's own 64-bit reading of "aligned". */
  ghost predicate Derives(s: bytes) { exists n :: WellFormed(n, false) && PrintRoot(n) == s }

  // ---------- plain trees ----------

  predicate Encodable(n: Node<bytes>)
    decreases n
  {
    match n
    case Regular(_, c) => Fits(c)
    case Symlink(t) => Fits(t)
    case Directory(es) => EncodableEntries(es)
  }

  predicate EncodableEntries(es: Entries<bytes>)
    decreases es
  {
    match es
    case Nil => true
    case Entry(name, node, rest) => Fits(name) && Encodable(node) && EncodableEntries(rest)
  }

  function Concrete(n: Node<bytes>): (c: Node<Blob>)
    requires Encodable(n)
    ensures WellFormed(c, true) && Plain(c) == n
    decreases n
  {
    match n
    case Regular(x, c) => Regular(x, Pack(c))
    case Symlink(t) => Symlink(Pack(t))
    case Directory(es) => Directory(ConcreteEntries(es))
  }

  function ConcreteEntries(es: Entries<bytes>): (c: Entries<Blob>)
    requires EncodableEntries(es)
    ensures WellFormedEntries(c, true) && PlainEntries(c) == es
    decreases es
  {
    match es
    case Nil => Nil
    case Entry(name, node, rest) => Entry(Pack(name), Concrete(node), ConcreteEntries(rest))
  }

  /** The tree that a piece of concrete syntax stands for. */
  function Plain(c: Node<Blob>): Node<bytes>
    requires WellFormed(c, true)
    decreases c
  {
    match c
    case Regular(x, b) => Regular(x, b.Data())
    case Symlink(t) => Symlink(t.Data())
    case Directory(es) => Directory(PlainEntries(es))
  }

  function PlainEntries(c: Entries<Blob>): Entries<bytes>
    requires WellFormedEntries(c, true)
    decreases c
  {
    match c
    case Nil => Nil
    case Entry(name, node, rest) => Entry(name.Data(), Plain(node), PlainEntries(rest))
  }

  /** The NAR encoding of a tree: the grammar, with zero padding. */
  function Encode(n: Node<bytes>): bytes
    requires Encodable(n)
  {
    PrintRoot(Concrete(n))
  }

  // ---------- events ----------

  /** `NarEvent`, with the file reader replaced by the bytes it yields. */
  datatype NarEvent =
    | FileEvent(name: bytes, executable: bool, size: u64, contents: bytes)
    | SymlinkEvent(name: bytes, target: bytes)
    | StartDirectory(name: bytes)
    | EndDirectory

  function Events(name: bytes, n: Node<bytes>): seq<NarEvent>
    requires Encodable(n)
    decreases n
  {
    match n
    case Regular(x, c) => [FileEvent(name, x, |c|, c)]
    case Symlink(t) => [SymlinkEvent(name, t)]
    case Directory(es) => [StartDirectory(name)] + EntryEvents(es) + [EndDirectory]
  }

  function EntryEvents(es: Entries<bytes>): seq<NarEvent>
    requires EncodableEntries(es)
    decreases es
  {
    match es
    case Nil => []
    case Entry(name, node, rest) => Events(name, node) + EntryEvents(rest)
  }

  // ---------- tokens ----------

  function TokRoot(): bytes { Str("nix-archive-1") + Str("(") + Str("type") }
  function TokPar(): bytes { Str(")") }
  function TokEntry(): bytes { Str("entry") + Str("(") + Str("name") }
  function TokNode(): bytes { Str("node") + Str("(") + Str("type") }
  function TokFileE(): bytes { Str("regular") + Str("executable") + Str("") + Str("contents") }
  function TokFile(): bytes { Str("regular") + Str("contents") }
  function TokSym(): bytes { Str("symlink") + Str("target") }
  function TokDir(): bytes { Str("directory") }

  function TokRegular(x: bool): bytes { if x then TokFileE() else TokFile() }

  /** The length of a printed string, its first byte and its first letter. */
  lemma StrShape(s: string)
    requires |s| <= MAX_LEN
    ensures |Str(s)| == 8 + CalcAligned(|s|)
    ensures Str(s)[0] == |s| % 256
    ensures |s| > 0 ==> Str(s)[8] == s[0] as int % 128
  {}

  lemma TokenLengths()
    ensures |TokRoot()| == 56 && |TokPar()| == 16 && |TokEntry()| == 48 && |TokNode()| == 48
    ensures |TokFileE()| == 64 && |TokFile()| == 32 && |TokSym()| == 32 && |TokDir()| == 24
  {
    hide Str;
    StrShape("nix-archive-1"); StrShape("("); StrShape("type"); StrShape(")");
    StrShape("entry"); StrShape("name"); StrShape("node"); StrShape("regular");
    StrShape("executable"); StrShape(""); StrShape("contents"); StrShape("symlink");
    StrShape("target"); StrShape("directory");
  }

  /** The bytes of a short string. */
  lemma StrBytes(s: string)
    requires |s| < 256
    ensures Str(s) == [|s|, 0, 0, 0, 0, 0, 0, 0] + Ascii(s) + Zeros(CalcPadding(|s|))
  {
    hide LE64, FromLE64, CalcPadding;
    var w := [|s|, 0, 0, 0, 0, 0, 0, 0];
    LittleEndian(w);
    Word64(0, w);
  }

  /** The words of the format, byte by byte. */
  lemma WordsOfRoot()
    ensures Str("nix-archive-1") ==
      [13, 0, 0, 0, 0, 0, 0, 0, 110, 105, 120, 45, 97, 114, 99, 104, 105, 118, 101, 45, 49, 0, 0, 0]
    ensures Str("type") == [4, 0, 0, 0, 0, 0, 0, 0, 116, 121, 112, 101, 0, 0, 0, 0]
  {
    hide Str;
    StrBytes("nix-archive-1");
    StrBytes("type");
  }

  lemma WordsOfBrackets()
    ensures Str("(") == [1, 0, 0, 0, 0, 0, 0, 0, 40, 0, 0, 0, 0, 0, 0, 0]
    ensures Str(")") == [1, 0, 0, 0, 0, 0, 0, 0, 41, 0, 0, 0, 0, 0, 0, 0]
  {
    hide Str;
    StrBytes("(");
    StrBytes(")");
  }

  lemma WordsOfEntry()
    ensures Str("entry") == [5, 0, 0, 0, 0, 0, 0, 0, 101, 110, 116, 114, 121, 0, 0, 0]
    ensures Str("name") == [4, 0, 0, 0, 0, 0, 0, 0, 110, 97, 109, 101, 0, 0, 0, 0]
    ensures Str("node") == [4, 0, 0, 0, 0, 0, 0, 0, 110, 111, 100, 101, 0, 0, 0, 0]
  {
    hide Str;
    StrBytes("entry");
    StrBytes("name");
    StrBytes("node");
  }

  lemma WordsOfFile()
    ensures Str("regular") == [7, 0, 0, 0, 0, 0, 0, 0, 114, 101, 103, 117, 108, 97, 114, 0]
    ensures Str("executable") ==
      [10, 0, 0, 0, 0, 0, 0, 0, 101, 120, 101, 99, 117, 116, 97, 98, 108, 101, 0, 0, 0, 0, 0, 0]
    ensures Str("") == [0, 0, 0, 0, 0, 0, 0, 0]
    ensures Str("contents") == [8, 0, 0, 0, 0, 0, 0, 0, 99, 111, 110, 116, 101, 110, 116, 115]
  {
    hide Str;
    StrBytes("regular");
    StrBytes("executable");
    StrBytes("");
    StrBytes("contents");
  }

  lemma WordsOfOthers()
    ensures Str("symlink") == [7, 0, 0, 0, 0, 0, 0, 0, 115, 121, 109, 108, 105, 110, 107, 0]
    ensures Str("target") == [6, 0, 0, 0, 0, 0, 0, 0, 116, 97, 114, 103, 101, 116, 0, 0]
    ensures Str("directory") ==
      [9, 0, 0, 0, 0, 0, 0, 0, 100, 105, 114, 101, 99, 116, 111, 114, 121, 0, 0, 0, 0, 0, 0, 0]
  {
    hide Str;
    StrBytes("symlink");
    StrBytes("target");
    StrBytes("directory");
  }

  /** The tokens, byte by byte. */
  lemma TokenBytes()
    ensures TokRoot() ==
      [13, 0, 0, 0, 0, 0, 0, 0, 110, 105, 120, 45, 97, 114, 99, 104, 105, 118, 101, 45, 49, 0, 0, 0] +
      [1, 0, 0, 0, 0, 0, 0, 0, 40, 0, 0, 0, 0, 0, 0, 0] +
      [4, 0, 0, 0, 0, 0, 0, 0, 116, 121, 112, 101, 0, 0, 0, 0]
    ensures TokPar() ==
      [1, 0, 0, 0, 0, 0, 0, 0, 41, 0, 0, 0, 0, 0, 0, 0]
    ensures TokEntry() ==
      [5, 0, 0, 0, 0, 0, 0, 0, 101, 110, 116, 114, 121, 0, 0, 0] +
      [1, 0, 0, 0, 0, 0, 0, 0, 40, 0, 0, 0, 0, 0, 0, 0] +
      [4, 0, 0, 0, 0, 0, 0, 0, 110, 97, 109, 101, 0, 0, 0, 0]
    ensures TokNode() ==
      [4, 0, 0, 0, 0, 0, 0, 0, 110, 111, 100, 101, 0, 0, 0, 0] +
      [1, 0, 0, 0, 0, 0, 0, 0, 40, 0, 0, 0, 0, 0, 0, 0] +
      [4, 0, 0, 0, 0, 0, 0, 0, 116, 121, 112, 101, 0, 0, 0, 0]
    ensures TokFileE() ==
      [7, 0, 0, 0, 0, 0, 0, 0, 114, 101, 103, 117, 108, 97, 114, 0] +
      [10, 0, 0, 0, 0, 0, 0, 0, 101, 120, 101, 99, 117, 116, 97, 98, 108, 101, 0, 0, 0, 0, 0, 0] +
      [0, 0, 0, 0, 0, 0, 0, 0] +
      [8, 0, 0, 0, 0, 0, 0, 0, 99, 111, 110, 116, 101, 110, 116, 115]
    ensures TokFile() ==
      [7, 0, 0, 0, 0, 0, 0, 0, 114, 101, 103, 117, 108, 97, 114, 0] +
      [8, 0, 0, 0, 0, 0, 0, 0, 99, 111, 110, 116, 101, 110, 116, 115]
    ensures TokSym() ==
      [7, 0, 0, 0, 0, 0, 0, 0, 115, 121, 109, 108, 105, 110, 107, 0] +
      [6, 0, 0, 0, 0, 0, 0, 0, 116, 97, 114, 103, 101, 116, 0, 0]
    ensures TokDir() ==
      [9, 0, 0, 0, 0, 0, 0, 0, 100, 105, 114, 101, 99, 116, 111, 114, 121, 0, 0, 0, 0, 0, 0, 0]
  {
    hide Str;
    WordsOfRoot();
    WordsOfBrackets();
    WordsOfEntry();
    WordsOfFile();
    WordsOfOthers();
  }

  /** The bytes at which the alternatives of each choice part ways. */
  lemma TokenForks()
    ensures TokDir()[0] == 9 && TokSym()[0] == TokFile()[0] == TokFileE()[0] == 7
    ensures TokSym()[8] == 's' as int && TokFile()[8] == TokFileE()[8] == 'r' as int
    ensures TokFile()[16] == 8 && TokFileE()[16] == 10
    ensures TokEntry()[0] == 5 && TokPar()[0] == 1
  {
    hide Str;
    StrShape("("); StrShape(")"); StrShape("entry"); StrShape("name"); StrShape("regular");
    StrShape("executable"); StrShape(""); StrShape("contents"); StrShape("symlink");
    StrShape("target"); StrShape("directory");
  }

  // ---------- printing in front of a continuation ----------

  /** A node from its type word on, closed, and followed by `k`. */
  function Body(n: Node<Blob>, k: bytes): bytes
    decreases n
  {
    match n
    case Regular(x, c) => TokRegular(x) + (LE64(c.len) + (c.raw + (TokPar() + k)))
    case Symlink(t) => TokSym() + (LE64(t.len) + (t.raw + (TokPar() + k)))
    case Directory(es) => TokDir() + Items(es, TokPar() + k)
  }

  function Items(es: Entries<Blob>, k: bytes): bytes
    decreases es
  {
    match es
    case Nil => k
    case Entry(name, node, rest) =>
      TokEntry() + (LE64(name.len) + (name.raw + (TokNode() + Body(node, TokPar() + Items(rest, k)))))
  }

  lemma Assoc(a: bytes, b: bytes, c: bytes)
    ensures a + b + c == a + (b + c)
  {}

  /** Re-association of a printed string inside a node. */
  lemma Reassociate(a: bytes, b: bytes, l: bytes, w: bytes, p: bytes, k: bytes)
    ensures a + (b + (l + w)) + p + k == a + (b + (l + (w + (p + k))))
  {
    assert b + (l + w) + (p + k) == b + (l + (w + (p + k)));
  }

  lemma {:induction false} PrintNodeIsBody(n: Node<Blob>, k: bytes)
    ensures PrintNode(n) + k == Str("(") + Str("type") + Body(n, k)
    decreases n
  {
    hide Str;
    var open := Str("(") + Str("type");
    match n
    case Regular(x, c) =>
      Reassociate(open, TokRegular(x), LE64(c.len), c.raw, TokPar(), k);
      assert Str("regular") + (if x then Str("executable") + Str("") else []) + Str("contents") + c.Print()
        == TokRegular(x) + c.Print();
    case Symlink(t) =>
      Reassociate(open, TokSym(), LE64(t.len), t.raw, TokPar(), k);
    case Directory(es) =>
      PrintEntriesIsItems(es, TokPar() + k);
      assert open + (TokDir() + PrintEntries(es)) + TokPar() + k ==
        open + (TokDir() + (PrintEntries(es) + (TokPar() + k)));
  }

  lemma {:induction false} PrintEntriesIsItems(es: Entries<Blob>, k: bytes)
    ensures PrintEntries(es) + k == Items(es, k)
    decreases es
  {
    hide Str;
    match es
    case Nil =>
    case Entry(name, node, rest) =>
      PrintEntriesIsItems(rest, k);
      PrintNodeIsBody(node, TokPar() + Items(rest, k));
      PrintEntryIs(name, node, Items(rest, k));
      Assoc(PrintEntry(name, node), PrintEntries(rest), k);
  }

  lemma PrintEntryIs(name: Blob, node: Node<Blob>, k: bytes)
    ensures PrintEntry(name, node) + k ==
      TokEntry() + (LE64(name.len) + (name.raw + (TokNode() + Body(node, TokPar() + k))))
    requires PrintNode(node) + (TokPar() + k) == Str("(") + Str("type") + Body(node, TokPar() + k)
  {
    hide Str, PrintNode, Body;
    var n, d := Str("node"), PrintNode(node);
    Reassociate([], TokEntry(), LE64(name.len), name.raw, n, d + (TokPar() + k));
    assert TokEntry() + name.Print() + n + d + TokPar() + k ==
      [] + (TokEntry() + name.Print()) + n + (d + (TokPar() + k));
    Assoc(n, Str("(") + Str("type"), Body(node, TokPar() + k));
    Assoc(n, Str("("), Str("type"));
  }

  lemma PrintRootIsBody(n: Node<Blob>, k: bytes)
    ensures PrintRoot(n) + k == TokRoot() + Body(n, k)
  {
    hide Str, Body, PrintNode;
    PrintNodeIsBody(n, k);
    assert PrintRoot(n) + k == Str("nix-archive-1") + (PrintNode(n) + k);
  }
}
