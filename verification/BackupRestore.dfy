/**
 Backup archives of certificate material and their restoration: what an archive
 holds, what may be read out of one, and which files a restoration writes.
 */
module BackupRestore {
  import opened Options
  import opened Text

  type Bytes = seq<bv8>
  newtype Octet = x: int | 0 <= x < 256

  // ── Fingerprints and directories ─────────────────────────────────────────

  function HexDigit(n: int): char
    requires 0 <= n < 16
  {
    if n < 10 then ('0' as int + n) as char else ('a' as int + n - 10) as char
  }

  predicate IsHex(c: char) {
    '0' <= c <= '9' || 'a' <= c <= 'f'
  }

  function Hex(digest: seq<Octet>): (r: string)
    ensures |r| == 2 * |digest|
    ensures forall c | c in r :: IsHex(c)
  {
    if digest == [] then ""
    else [HexDigit(digest[0] as int / 16), HexDigit(digest[0] as int % 16)] + Hex(digest[1..])
  }

  /** The pairs of `hex`, with colons between them. */
  function Colons(hex: string): string {
    if |hex| <= 2 then hex else hex[..2] + ":" + Colons(hex[2..])
  }

  /** The canonical spelling of a fingerprint. */
  function Fingerprint(digest: seq<Octet>): string {
    Upper(Colons(Hex(digest)))
  }

  /** The directory under the store's root that belongs to a fingerprint. */
  function DirName(fingerprint: string): string {
    Lower(Without(fingerprint, ':'))
  }

  lemma {:induction false} HexInjective(d: seq<Octet>, e: seq<Octet>)
    requires Hex(d) == Hex(e)
    ensures d == e
  {
    if d != [] && e != [] {
      var h, g := Hex(d), Hex(e);
      DigitsInjective(d[0] as int / 16, e[0] as int / 16);
      DigitsInjective(d[0] as int % 16, e[0] as int % 16);
      assert h[2..] == Hex(d[1..]) && g[2..] == Hex(e[1..]);
      assert h[0] == HexDigit(d[0] as int / 16) && g[0] == HexDigit(e[0] as int / 16);
      assert h[1] == HexDigit(d[0] as int % 16) && g[1] == HexDigit(e[0] as int % 16);
      HexInjective(d[1..], e[1..]);
      assert d == [d[0]] + d[1..] && e == [e[0]] + e[1..];
    }
  }

  lemma DigitsInjective(m: int, n: int)
    requires 0 <= m < 16 && 0 <= n < 16
    ensures HexDigit(m) == HexDigit(n) ==> m == n
  {}

  lemma {:induction false} WithoutAppend(a: string, b: string, c: char)
    ensures Without(a + b, c) == Without(a, c) + Without(b, c)
  {
    if a == "" {
      assert a + b == b;
    } else {
      assert (a + b)[1..] == a[1..] + b;
      WithoutAppend(a[1..], b, c);
    }
  }

  lemma {:induction false} WithoutAbsent(s: string, c: char)
    requires c !in s
    ensures Without(s, c) == s
  {
    if s != "" {
      WithoutAbsent(s[1..], c);
      assert s == [s[0]] + s[1..];
    }
  }

  lemma UpperAppend(a: string, b: string)
    ensures Upper(a + b) == Upper(a) + Upper(b)
  {}

  lemma UpperHexHasNoColon(h: string)
    requires forall c | c in h :: IsHex(c)
    ensures ':' !in Upper(h)
  {
    forall i | 0 <= i < |h| ensures Upper(h)[i] != ':' { assert h[i] in h; }
  }

  lemma {:induction false} ColonsVanish(h: string)
    requires forall c | c in h :: IsHex(c)
    ensures Without(Upper(Colons(h)), ':') == Upper(h)
  {
    if |h| <= 2 {
      UpperHexHasNoColon(h);
      WithoutAbsent(Upper(h), ':');
    } else {
      var a, b := h[..2], h[2..];
      assert h == a + b;
      UpperHexHasNoColon(a);
      WithoutAbsent(Upper(a), ':');
      ColonBetween(a, Colons(b));
      ColonsVanish(b);
      UpperAppend(a, b);
    }
  }

  lemma ColonBetween(a: string, b: string)
    ensures Without(Upper(a + ":" + b), ':') == Without(Upper(a), ':') + Without(Upper(b), ':')
  {
    UpperAround(a, b);
    WithoutBetween(Upper(a), Upper(b), ':');
  }

  lemma UpperAround(a: string, b: string)
    ensures Upper(a + ":" + b) == Upper(a) + ":" + Upper(b)
  {}

  lemma WithoutBetween(a: string, b: string, c: char)
    ensures Without(a + [c] + b, c) == Without(a, c) + Without(b, c)
  {
    WithoutAppend(a + [c], b, c);
    WithoutAppend(a, [c], c);
  }

  /** The directory of a canonical fingerprint is the digest in hexadecimal. */
  lemma DirNameIsHex(d: seq<Octet>)
    ensures DirName(Fingerprint(d)) == Hex(d)
  {
    var h := Hex(d);
    ColonsVanish(h);
    forall i | 0 <= i < |h| ensures Lower(Upper(h))[i] == h[i] { assert h[i] in h; }
  }

  /** Different digests: different fingerprints, different directories. */
  lemma DirectoriesInjective(d: seq<Octet>, e: seq<Octet>)
    ensures DirName(Fingerprint(d)) == DirName(Fingerprint(e)) <==> d == e
    ensures Fingerprint(d) == Fingerprint(e) <==> d == e
  {
    DirNameIsHex(d);
    DirNameIsHex(e);
    if Hex(d) == Hex(e) { HexInjective(d, e); }
  }

  // ── Members and paths ────────────────────────────────────────────────────

  datatype Member = Certificate | PrivateKey | Chain | Fullchain | Pfx

  const COUNT: nat := 5

  /** The order in which material is archived. */
  function Nth(k: nat): (m: Member)
    requires k < COUNT
    ensures Index(m) == k
  {
    if k == 0 then Certificate else if k == 1 then PrivateKey else if k == 2 then Chain
    else if k == 3 then Fullchain else Pfx
  }

  function Index(m: Member): (k: nat)
    ensures k < COUNT
  {
    match m
    case Certificate => 0
    case PrivateKey => 1
    case Chain => 2
    case Fullchain => 3
    case Pfx => 4
  }

  /** The row's column, which is also the stem of the archive entry's name. */
  function Column(m: Member): string {
    match m
    case Certificate => "cert_path"
    case PrivateKey => "key_path"
    case Chain => "chain_path"
    case Fullchain => "fullchain_path"
    case Pfx => "pfx_path"
  }

  function FileName(m: Member): string {
    match m
    case Certificate => "cert.pem"
    case PrivateKey => "privkey.enc.pem"
    case Chain => "chain.pem"
    case Fullchain => "fullchain.pem"
    case Pfx => "bundle.pfx"
  }

  function InDirectory(root: string, fingerprint: string, name: string): string {
    root + "/" + DirName(fingerprint) + "/" + name
  }

  function StorePath(root: string, fingerprint: string, m: Member): string {
    InDirectory(root, fingerprint, FileName(m))
  }

  // Where the store itself keeps its files

  function CertPath(root: string, fingerprint: string): string {
    root + "/" + DirName(fingerprint) + "/" + "cert.pem"
  }

  function KeyPath(root: string, fingerprint: string): string {
    root + "/" + DirName(fingerprint) + "/" + "privkey.enc.pem"
  }

  function ChainPath(root: string, fingerprint: string): string {
    root + "/" + DirName(fingerprint) + "/" + "chain.pem"
  }

  function FullchainPath(root: string, fingerprint: string): string {
    root + "/" + DirName(fingerprint) + "/" + "fullchain.pem"
  }

  function PfxPath(root: string, fingerprint: string): string {
    root + "/" + DirName(fingerprint) + "/" + "bundle.pfx"
  }

  /** A restoration writes each member where the store's own readers look for it. */
  lemma RestoredWhereKept(root: string, fingerprint: string, m: Member)
    ensures StorePath(root, fingerprint, m) ==
            match m
            case Certificate => CertPath(root, fingerprint)
            case PrivateKey => KeyPath(root, fingerprint)
            case Chain => ChainPath(root, fingerprint)
            case Fullchain => FullchainPath(root, fingerprint)
            case Pfx => PfxPath(root, fingerprint)
  {}

  /** No file below one certificate's directory is below another's. */
  lemma DirectoriesDisjoint(root: string, d: seq<Octet>, e: seq<Octet>, name: string, name': string)
    requires |d| == |e| && d != e
    ensures InDirectory(root, Fingerprint(d), name) != InDirectory(root, Fingerprint(e), name')
  {
    DirectoriesInjective(d, e);
    DirNameIsHex(d);
    DirNameIsHex(e);
    DirectoryParts(root + "/", Hex(d), Hex(e), "/" + name, "/" + name');
    assert root + "/" + Hex(d) + "/" + name == root + "/" + Hex(d) + ("/" + name);
    assert root + "/" + Hex(e) + "/" + name' == root + "/" + Hex(e) + ("/" + name');
  }

  lemma DirectoryParts(p: string, x: string, y: string, a: string, b: string)
    requires |x| == |y| && x != y
    ensures p + x + a != p + y + b
  {
    var k :| 0 <= k < |x| && x[k] != y[k];
    assert (p + x + a)[|p| + k] == x[k];
    assert (p + y + b)[|p| + k] == y[k];
  }

  // ── Archives ─────────────────────────────────────────────────────────────

  datatype Entry = Entry(name: string, isFile: bool, content: Bytes)

  type Files = map<string, Bytes>
  type Paths = map<Member, string>
  type Contents = map<Member, Bytes>

  predicate OnDisk(files: Files, paths: Paths, m: Member) {
    m in paths && paths[m] != "" && paths[m] in files
  }

  /** The row's material on disk. */
  function Material(files: Files, paths: Paths): (r: Contents)
    ensures forall m :: m in r <==> OnDisk(files, paths, m)
  {
    map m | m in paths && OnDisk(files, paths, m) :: files[paths[m]]
  }

  function EntryName(m: Member): string {
    Column(m) + ".bin"
  }

  function EntryFor(m: Member, content: Bytes): Entry {
    Entry(EntryName(m), true, content)
  }

  /** The text behind the last slash; pathlib drops empty and "." components. */
  function BaseName(s: string): string
    decreases |s|
  {
    var k := AfterSlash(s);
    if s[k..] != "" && s[k..] != "." then s[k..]
    else if k == 0 then ""
    else BaseName(s[..k - 1])
  }

  function AfterSlash(s: string): (k: nat)
    ensures k <= |s|
  {
    if s == "" || s[|s| - 1] == '/' then |s| else AfterSlash(s[..|s| - 1])
  }

  function Named(column: string): (r: Option<Member>)
    ensures r.Some? ==> Column(r.value) == column
  {
    if column == "cert_path" then Some(Certificate)
    else if column == "key_path" then Some(PrivateKey)
    else if column == "chain_path" then Some(Chain)
    else if column == "fullchain_path" then Some(Fullchain)
    else if column == "pfx_path" then Some(Pfx)
    else None
  }

  /** The member an archive entry stands for, if any. */
  function MemberOf(e: Entry): Option<Member> {
    var name := BaseName(e.name);
    if !e.isFile || !EndsWith(name, ".bin") then None else Named(name[..|name| - 4])
  }

  lemma ColumnsDiffer(m: Member)
    ensures Named(Column(m)) == Some(m)
  {}

  lemma PlainName(s: string)
    requires '/' !in s && s != "" && s != "."
    ensures BaseName(s) == s
  {
    NoSlash(s);
    assert s[0..] == s;
  }

  lemma {:induction false} NoSlash(s: string)
    requires '/' !in s && s != ""
    ensures AfterSlash(s) == 0
  {
    if |s| > 1 { NoSlash(s[..|s| - 1]); }
  }

  /** Every entry a backup writes is recognised. */
  lemma EntryRecognised(m: Member, content: Bytes)
    ensures MemberOf(EntryFor(m, content)) == Some(m)
  {
    var name := EntryName(m);
    assert '/' !in Column(m) && '/' !in ".bin";
    assert |name| > 4;
    PlainName(name);
    assert name[|name| - 4..] == ".bin";
    assert name[..|name| - 4] == Column(m);
    ColumnsDiffer(m);
  }

  lemma {:induction false} AfterSlashIs(s: string)
    ensures AfterSlash(s) > 0 ==> s[AfterSlash(s) - 1] == '/'
  {
    if s != "" && s[|s| - 1] != '/' { AfterSlashIs(s[..|s| - 1]); }
  }

  lemma {:induction false} AfterSlashAppend(dir: string, name: string)
    requires dir != "" && dir[|dir| - 1] == '/' && '/' !in name
    ensures AfterSlash(dir + name) == |dir|
  {
    if name == "" {
      assert dir + name == dir;
    } else {
      var n := |name| - 1;
      assert (dir + name)[..|dir + name| - 1] == dir + name[..n];
      AfterSlashAppend(dir, name[..n]);
    }
  }

  /** `s` is `name` in some directory, with nothing but separators and dots behind it, if anything. */
  ghost predicate NamedIn(s: string, name: string, dir: string, tail: string) {
    s == dir + name + tail && (dir == "" || dir[|dir| - 1] == '/') && (tail == "" || tail[0] == '/')
  }

  lemma {:induction false} BaseNameSplit(s: string) returns (dir: string, tail: string)
    requires BaseName(s) != ""
    ensures NamedIn(s, BaseName(s), dir, tail)
    decreases |s|
  {
    var k := AfterSlash(s);
    AfterSlashIs(s);
    if s[k..] != "" && s[k..] != "." {
      dir, tail := s[..k], "";
      assert s == s[..k] + s[k..] + "";
    } else {
      var t;
      dir, t := BaseNameSplit(s[..k - 1]);
      tail := t + ("/" + s[k..]);
      assert s == s[..k - 1] + ("/" + s[k..]);
      Rejoin(dir, BaseName(s), t, "/" + s[k..]);
    }
  }

  lemma Rejoin(a: string, b: string, c: string, d: string)
    ensures a + b + c + d == a + b + (c + d)
  {}

  /** What an entry must be to stand for a member: a regular file with the
      member's name, in whichever directory. */
  lemma OnlyNamedFiles(e: Entry, m: Member) returns (dir: string, tail: string)
    requires MemberOf(e) == Some(m)
    ensures e.isFile && NamedIn(e.name, EntryName(m), dir, tail)
  {
    var name := BaseName(e.name);
    assert name == name[..|name| - 4] + name[|name| - 4..];
    dir, tail := BaseNameSplit(e.name);
  }

  /** And every such entry does. */
  lemma InAnyDirectory(dir: string, m: Member, content: Bytes)
    requires dir == "" || dir[|dir| - 1] == '/'
    ensures MemberOf(Entry(dir + EntryName(m), true, content)) == Some(m)
    ensures MemberOf(Entry(dir + EntryName(m), false, content)) == None
  {
    var s, name := dir + EntryName(m), EntryName(m);
    EntryRecognised(m, content);
    NoSlashIn(m);
    if dir == "" {
      assert s == name;
    } else {
      AfterSlashAppend(dir, name);
      assert s[|dir|..] == name;
      PlainName(name);
    }
  }

  lemma NoSlashIn(m: Member)
    ensures '/' !in EntryName(m) && |EntryName(m)| > 4
  {
    assert '/' !in Column(m) && '/' !in ".bin";
  }

  /** The members from the k-th on, as archive entries. */
  function Archived(material: Contents, k: nat): seq<Entry>
    requires k <= COUNT
    decreases COUNT - k
  {
    if k == COUNT then []
    else
      (if Nth(k) in material then [EntryFor(Nth(k), material[Nth(k)])] else [])
      + Archived(material, k + 1)
  }

  /** The names by which a reader knows the members, wherever in the archive they are. */
  lemma ArchiveNames(content: Bytes)
    ensures EntryFor(Certificate, content).name == "cert_path.bin"
    ensures EntryFor(PrivateKey, content).name == "key_path.bin"
    ensures EntryFor(Chain, content).name == "chain_path.bin"
    ensures EntryFor(Fullchain, content).name == "fullchain_path.bin"
    ensures EntryFor(Pfx, content).name == "pfx_path.bin"
  {}

  lemma ArchivedNext(done: seq<Entry>, material: Contents, k: nat)
    requires k < COUNT
    ensures
      var m := Nth(k);
      done + Archived(material, k) ==
      (if m in material then done + [EntryFor(m, material[m])] else done) + Archived(material, k + 1)
  {}

  /** Which member an entry stands for, if any. */
  type Keying = Entry -> Option<Member>

  /** `i` is the last entry that stands for `m`. */
  ghost predicate LastOf(key: Keying, entries: seq<Entry>, m: Member, i: nat) {
    && i < |entries| && key(entries[i]) == Some(m)
    && forall j | i < j < |entries| :: key(entries[j]) != Some(m)
  }

  ghost predicate Lacks(key: Keying, entries: seq<Entry>, m: Member) {
    forall j | 0 <= j < |entries| :: key(entries[j]) != Some(m)
  }

  /** What reading an archive means for a member: the content of the last entry
      that stands for it, or nothing when no entry does. */
  ghost predicate ReadsAs(key: Keying, entries: seq<Entry>, m: Member, r: Contents) {
    if m in r then exists i: nat :: LastOf(key, entries, m, i) && r[m] == entries[i].content
    else Lacks(key, entries, m)
  }

  function ReadBy(key: Keying, entries: seq<Entry>): Contents {
    if entries == [] then map[]
    else Noted(key, entries[|entries| - 1], ReadBy(key, entries[..|entries| - 1]))
  }

  function Noted(key: Keying, e: Entry, r: Contents): Contents {
    if key(e).Some? then r[key(e).value := e.content] else r
  }

  /** What is read from an archive. */
  function Read(entries: seq<Entry>): Contents {
    ReadBy(MemberOf, entries)
  }

  lemma LastOfAppend(key: Keying, before: seq<Entry>, e: Entry, m: Member, i: nat)
    requires LastOf(key, before, m, i) && key(e) != Some(m)
    ensures LastOf(key, before + [e], m, i)
  {}

  lemma LacksAppend(key: Keying, before: seq<Entry>, e: Entry, m: Member)
    requires Lacks(key, before, m) && key(e) != Some(m)
    ensures Lacks(key, before + [e], m)
  {}

  lemma ReadsAsAppend(key: Keying, before: seq<Entry>, e: Entry, m: Member, r: Contents)
    requires ReadsAs(key, before, m, r)
    ensures ReadsAs(key, before + [e], m, Noted(key, e, r))
  {
    if key(e) == Some(m) {
      assert LastOf(key, before + [e], m, |before|);
    } else if m in r {
      var i: nat :| LastOf(key, before, m, i) && r[m] == before[i].content;
      LastOfAppend(key, before, e, m, i);
      assert (before + [e])[i] == before[i];
    } else {
      LacksAppend(key, before, e, m);
    }
  }

  /** Reading is right for every archive, whoever made it. */
  lemma {:induction false} ReadIsRight(key: Keying, entries: seq<Entry>, m: Member)
    ensures ReadsAs(key, entries, m, ReadBy(key, entries))
  {
    if entries != [] {
      var before, e := entries[..|entries| - 1], entries[|entries| - 1];
      ReadIsRight(key, before, m);
      ReadsAsAppend(key, before, e, m, ReadBy(key, before));
      assert entries == before + [e];
    }
  }

  lemma {:induction false} ReadConcat(key: Keying, a: seq<Entry>, b: seq<Entry>)
    ensures ReadBy(key, a + b) == ReadBy(key, a) + ReadBy(key, b)
  {
    if b == [] {
      assert a + b == a;
    } else {
      var n := |b| - 1;
      assert (a + b)[..|a + b| - 1] == a + b[..n];
      assert (a + b)[|a + b| - 1] == b[n];
      ReadConcat(key, a, b[..n]);
    }
  }

  /** Every entry a backup writes is recognised as the member it is. */
  ghost predicate Recognises(key: Keying) {
    forall m: Member, content :: key(EntryFor(m, content)) == Some(m)
  }

  lemma ReadOne(key: Keying, m: Member, content: Bytes)
    requires Recognises(key)
    ensures ReadBy(key, [EntryFor(m, content)]) == map[m := content]
  {
    var e := EntryFor(m, content);
    assert key(e) == Some(m);
    assert [e][..0] == [] && ReadBy(key, []) == map[];
  }

  function From(material: Contents, k: nat): Contents
    requires k <= COUNT
  {
    map m | m in material && Index(m) >= k :: material[m]
  }

  lemma FromNext(material: Contents, k: nat)
    requires k < COUNT
    ensures Nth(k) in material ==> From(material, k) == map[Nth(k) := material[Nth(k)]] + From(material, k + 1)
    ensures Nth(k) !in material ==> From(material, k) == From(material, k + 1)
  {}

  lemma {:induction false} ReadArchived(key: Keying, material: Contents, k: nat)
    requires Recognises(key) && k <= COUNT
    ensures ReadBy(key, Archived(material, k)) == From(material, k)
    decreases COUNT - k
  {
    if k < COUNT {
      var m, rest := Nth(k), Archived(material, k + 1);
      ReadArchived(key, material, k + 1);
      FromNext(material, k);
      if m in material {
        ReadOne(key, m, material[m]);
        ReadConcat(key, [EntryFor(m, material[m])], rest);
      } else {
        assert [] + rest == rest;
      }
    }
  }

  /** Reading undoes archiving. */
  lemma ReadInvertsArchive(material: Contents)
    ensures Read(Archived(material, 0)) == material
  {
    forall m: Member, content ensures MemberOf(EntryFor(m, content)) == Some(m) { EntryRecognised(m, content); }
    ReadArchived(MemberOf, material, 0);
    assert From(material, 0) == material;
  }

  // ── Restoration ──────────────────────────────────────────────────────────

  datatype Metadata = Metadata(subject: string, issuer: string, serial: string, validFrom: int, validUntil: int)
  datatype Decoded = Decoded(digest: seq<Octet>, meta: Metadata, sans: seq<string>)

  /** A certificate row; no fingerprint is the empty string. */
  datatype Row = Row(fingerprint: string, paths: Paths, meta: Option<Metadata>, sans: seq<string>)

  type Rows = map<nat, Row>
  type Decoder = Bytes -> Option<Decoded>

  datatype Error = NoCertificate | Unreadable | NotFound | FingerprintMismatch

  /** Where a restoration goes; None is a certificate yet to be imported. */
  type Target = Option<nat>

  /** Where a fingerprint's members are kept. */
  function Place(root: string, fingerprint: string): Member -> string {
    m => StorePath(root, fingerprint, m)
  }

  ghost predicate Apart(at: Member -> string) {
    forall m, n | m != n :: at(m) != at(n)
  }

  lemma PlacesApart(root: string, fingerprint: string)
    ensures Apart(Place(root, fingerprint))
  {}

  /** A certificate that decodes, and that may go into the row: it carries the
      row's fingerprint, or the row has none. */
  predicate Accepts(decode: Decoder, row: Row, cert: Bytes) {
    decode(cert).Some? && row.fingerprint in ["", Fingerprint(decode(cert).value.digest)]
  }

  function Put(files: Files, at: Member -> string, m: Member, r: Contents): Files {
    if m in r then files[at(m) := r[m]] else files
  }

  function PutAll(files: Files, at: Member -> string, r: Contents): Files {
    Put(Put(Put(Put(Put(files, at, Certificate, r), at, PrivateKey, r), at, Chain, r), at, Fullchain, r), at, Pfx, r)
  }

  function PathTo(paths: Paths, at: Member -> string, m: Member, r: Contents): Paths {
    if m in r then paths[m := at(m)] else paths
  }

  function Repath(paths: Paths, at: Member -> string, r: Contents): Paths {
    PathTo(PathTo(PathTo(PathTo(PathTo(paths, at, Certificate, r), at, PrivateKey, r), at, Chain, r), at, Fullchain, r),
           at, Pfx, r)
  }

  lemma RepathAt(paths: Paths, at: Member -> string, r: Contents, m: Member)
    ensures m in Repath(paths, at, r) <==> m in r || m in paths
    ensures m in r ==> Repath(paths, at, r)[m] == at(m)
    ensures m !in r && m in paths ==> Repath(paths, at, r)[m] == paths[m]
  {}

  function Refresh(row: Row, at: Member -> string, d: Decoded, r: Contents): Row {
    Row(Fingerprint(d.digest), Repath(row.paths, at, r), Some(d.meta), if d.sans != [] then d.sans else row.sans)
  }

  /** The row after a restoration carries the restored certificate's fingerprint
      and metadata, keeps its old names when the certificate has none, and accepts
      the same certificate again but none of another digest. */
  lemma RestoredRow(decode: Decoder, row: Row, at: Member -> string, r: Contents, cert: Bytes)
    requires Certificate in r && decode(r[Certificate]).Some?
    ensures
      var d := decode(r[Certificate]).value;
      var row' := Refresh(row, at, d, r);
      && row'.fingerprint == Fingerprint(d.digest) && row'.meta == Some(d.meta)
      && row'.sans == (if d.sans == [] then row.sans else d.sans)
      && (decode(cert).Some? && row'.fingerprint != "" ==>
            (Accepts(decode, row', cert) <==> decode(cert).value.digest == d.digest))
  {
    var d := decode(r[Certificate]).value;
    if decode(cert).Some? { DirectoriesInjective(d.digest, decode(cert).value.digest); }
  }

  /** Restoring the same archive twice is restoring it once. */
  lemma RestoreIdempotent(files: Files, row: Row, at: Member -> string, d: Decoded, r: Contents)
    requires Apart(at)
    ensures PutAll(PutAll(files, at, r), at, r) == PutAll(files, at, r)
    ensures Refresh(Refresh(row, at, d, r), at, d, r) == Refresh(row, at, d, r)
  {
    var once := PutAll(files, at, r);
    forall m | m in r ensures Put(once, at, m, r) == once {
      PutAllWrites(files, at, r, m);
    }
    var paths := Repath(row.paths, at, r);
    forall m: Member ensures PathTo(paths, at, m, r) == paths {
      RepathAt(row.paths, at, r, m);
    }
  }

  /** Each member ends up at its own path: no write undoes another. */
  lemma PutAllWrites(files: Files, at: Member -> string, r: Contents, m: Member)
    requires Apart(at) && m in r
    ensures at(m) in PutAll(files, at, r) && PutAll(files, at, r)[at(m)] == r[m]
  {}

  /** No other path changes. */
  lemma PutAllElsewhere(files: Files, at: Member -> string, r: Contents, p: string)
    requires forall m | m in r :: p != at(m)
    ensures
      var files' := PutAll(files, at, r);
      (p in files' <==> p in files) && (p in files ==> files'[p] == files[p])
  {}

  /** A restoration leaves every file of every other certificate alone. */
  lemma OthersUntouched(files: Files, root: string, d: seq<Octet>, e: seq<Octet>, name: string, r: Contents)
    requires |d| == |e| && d != e
    ensures
      var p, files' := InDirectory(root, Fingerprint(e), name), PutAll(files, Place(root, Fingerprint(d)), r);
      (p in files' <==> p in files) && (p in files ==> files'[p] == files[p])
  {
    var p, at := InDirectory(root, Fingerprint(e), name), Place(root, Fingerprint(d));
    forall m | m in r ensures p != at(m) {
      DirectoriesDisjoint(root, e, d, name, FileName(m));
    }
    PutAllElsewhere(files, at, r, p);
  }

  /** What a restoration makes of one column: the archived content at the place
      for it, and the row pointing there; else the column as it was. */
  lemma MaterialAt(later: Files, paths: Paths, at: Member -> string, r: Contents, m: Member)
    requires Apart(at) && at(m) != ""
    ensures
      var files', paths' := PutAll(later, at, r), Repath(paths, at, r);
      if m in r then m in Material(files', paths') && Material(files', paths')[m] == r[m]
      else (m in paths' <==> m in paths) && (m in paths ==> paths'[m] == paths[m])
  {
    RepathAt(paths, at, r, m);
    if m in r { PutAllWrites(later, at, r, m); }
  }

  /** Material backed up once is the row's material again after a restoration,
      byte for byte, whatever happened to the files and to the row's paths in
      between; columns the archive says nothing about stay as they were. */
  lemma RestoreInvertsBackup(files: Files, paths: Paths, later: Files, row: Row, root: string, d: Decoded, m: Member)
    ensures
      var r, at := Material(files, paths), Place(root, Fingerprint(d.digest));
      var row' := Refresh(row, at, d, Read(Archived(r, 0)));
      var r' := Material(PutAll(later, at, Read(Archived(r, 0))), row'.paths);
      if m in r then m in r' && r'[m] == r[m]
      else (m in row'.paths <==> m in row.paths) && (m in row.paths ==> row'.paths[m] == row.paths[m])
  {
    var r, at := Material(files, paths), Place(root, Fingerprint(d.digest));
    ReadInvertsArchive(r);
    PlacesApart(root, Fingerprint(d.digest));
    MaterialAt(later, row.paths, at, r, m);
  }

  lemma MaterialAfter(later: Files, paths: Paths, at: Member -> string, r: Contents)
    requires Apart(at) && forall m :: at(m) != ""
    requires forall m | m in paths :: m in r || paths[m] == ""
    ensures Material(PutAll(later, at, r), Repath(paths, at, r)) == r
  {
    var r' := Material(PutAll(later, at, r), Repath(paths, at, r));
    forall m: Member ensures (m in r' <==> m in r) && (m in r ==> r'[m] == r[m]) {
      MaterialAt(later, paths, at, r, m);
    }
  }

  /** A restored row whose other columns are empty is backed up to the very same archive. */
  lemma BackupInvertsRestore(files: Files, paths: Paths, later: Files, row: Row, root: string, d: Decoded)
    requires forall m | m in row.paths :: OnDisk(files, paths, m) || row.paths[m] == ""
    ensures
      var archive, at := Archived(Material(files, paths), 0), Place(root, Fingerprint(d.digest));
      var row' := Refresh(row, at, d, Read(archive));
      Archived(Material(PutAll(later, at, Read(archive)), row'.paths), 0) == archive
  {
    var r, at := Material(files, paths), Place(root, Fingerprint(d.digest));
    ReadInvertsArchive(r);
    PlacesApart(root, Fingerprint(d.digest));
    MaterialAfter(later, row.paths, at, r);
  }

  /** The certificates table and the disk. */
  class Vault {
    const root: string
    const decode: Decoder
    var files: Files
    var rows: Rows

    constructor (root: string, decode: Decoder)
      ensures this.root == root && this.decode == decode && files == map[] && rows == map[]
    {
      this.root := root;
      this.decode := decode;
      files := map[];
      rows := map[];
    }

    /** No archive without material; otherwise all of it, in order. */
    method BackUp(id: nat) returns (archive: Option<seq<Entry>>)
      requires id in rows
      ensures archive.None? <==> Material(files, rows[id].paths) == map[]
      ensures archive.Some? ==> archive.value == Archived(Material(files, rows[id].paths), 0)
    {
      var paths := rows[id].paths;
      ghost var material := Material(files, paths);
      var found := false;
      var k := 0;
      while k < COUNT && !found
        invariant 0 <= k <= COUNT
        invariant if found then material != map[] else forall m | m in material :: Index(m) >= k
        decreases COUNT - k, !found
      {
        found := OnDisk(files, paths, Nth(k));
        assert Nth(k) in material <==> found;
        k := k + 1;
      }
      if !found {
        return None;
      }
      var entries := ArchiveAll(paths);
      return Some(entries);
    }

    method ArchiveAll(paths: Paths) returns (entries: seq<Entry>)
      ensures entries == Archived(Material(files, paths), 0)
    {
      ghost var material := Material(files, paths);
      entries := [];
      var k := 0;
      while k < COUNT
        invariant 0 <= k <= COUNT
        invariant entries + Archived(material, k) == Archived(material, 0)
      {
        var m := Nth(k);
        ArchivedNext(entries, material, k);
        if OnDisk(files, paths, m) {
          entries := entries + [EntryFor(m, files[paths[m]])];
        }
        k := k + 1;
      }
    }

    /** The row asked for, unless it belongs to another fingerprint; else one
        with this fingerprint, if there is any. */
    method Locate(fingerprint: string, id: Option<nat>) returns (r: Result<Target, Error>)
      ensures r.Ok? <==> id.None? || (id.value in rows && rows[id.value].fingerprint in ["", fingerprint])
      ensures r.Ok? && id.Some? ==> r.value == id
      ensures r.Ok? && id.None? ==>
                if r.value.Some? then r.value.value in rows && rows[r.value.value].fingerprint == fingerprint
                else forall k | k in rows :: rows[k].fingerprint != fingerprint
    {
      if id.Some? {
        if id.value !in rows {
          return Err(NotFound);
        }
        if rows[id.value].fingerprint != "" && rows[id.value].fingerprint != fingerprint {
          return Err(FingerprintMismatch);
        }
        return Ok(id);
      }
      if k :| k in rows && rows[k].fingerprint == fingerprint {
        return Ok(Some(k));
      }
      return Ok(None);
    }

    /** Writes one member, when the archive has it, and notes where. */
    method Write(fingerprint: string, m: Member, r: Contents, paths: Paths) returns (paths': Paths)
      modifies this`files
      ensures files == Put(old(files), Place(root, fingerprint), m, r)
      ensures paths' == PathTo(paths, Place(root, fingerprint), m, r)
    {
      paths' := paths;
      if m in r {
        files := files[StorePath(root, fingerprint, m) := r[m]];
        paths' := paths[m := StorePath(root, fingerprint, m)];
      }
    }

    method WriteBack(id: nat, d: Decoded, r: Contents)
      requires id in rows
      modifies this`files, this`rows
      ensures files == PutAll(old(files), Place(root, Fingerprint(d.digest)), r)
      ensures rows == old(rows)[id := Refresh(old(rows[id]), Place(root, Fingerprint(d.digest)), d, r)]
    {
      var row := rows[id];
      var fp := Fingerprint(d.digest);
      var paths := Write(fp, Certificate, r, row.paths);
      paths := Write(fp, PrivateKey, r, paths);
      paths := Write(fp, Chain, r, paths);
      paths := Write(fp, Fullchain, r, paths);
      paths := Write(fp, Pfx, r, paths);
      rows := rows[id := Row(fp, paths, Some(d.meta), if d.sans != [] then d.sans else row.sans)];
    }

    /** Whether an archive can be restored at all into the row asked for. */
    predicate Restorable(entries: seq<Entry>, id: Option<nat>)
      reads this`rows
    {
      && Certificate in Read(entries)
      && decode(Read(entries)[Certificate]).Some?
      && (id.Some? ==> id.value in rows && Accepts(decode, rows[id.value], Read(entries)[Certificate]))
    }

    /** Restores an archive into the row asked for, else into one with its
        fingerprint; on an error, and in a dry run, nothing changes. */
    method Restore(entries: seq<Entry>, id: Option<nat>, dryRun: bool) returns (r: Result<Target, Error>)
      modifies this`files, this`rows
      ensures r.Ok? <==> old(Restorable(entries, id))
      ensures r.Err? || r.value.None? || dryRun ==> files == old(files) && rows == old(rows)
      ensures r.Ok? ==>
                var d := decode(Read(entries)[Certificate]).value;
                var at := Place(root, Fingerprint(d.digest));
                && (r.value.Some? ==> r.value.value in old(rows))
                && (r.value.Some? && !dryRun ==>
                      && files == PutAll(old(files), at, Read(entries))
                      && rows == old(rows)[r.value.value := Refresh(old(rows)[r.value.value], at, d, Read(entries))])
                && (id.Some? ==> r.value == id)
                && (id.None? ==>
                      if r.value.Some? then old(rows)[r.value.value].fingerprint == Fingerprint(d.digest)
                      else forall k | k in old(rows) :: old(rows)[k].fingerprint != Fingerprint(d.digest))
    {
      var members := ReadArchive(entries);
      if members.Err? {
        return Err(NoCertificate);
      }
      var decoded := decode(members.value[Certificate]);
      if decoded.None? {
        return Err(Unreadable);
      }
      var target := Locate(Fingerprint(decoded.value.digest), id);
      if target.Err? || dryRun || target.value.None? {
        return target;
      }
      WriteBack(target.value.value, decoded.value, members.value);
      return target;
    }
  }

  /** Reads an archive into memory, refusing one without a certificate. */
  method ReadArchive(entries: seq<Entry>) returns (r: Result<Contents, Error>)
    ensures r.Ok? <==> Certificate in Read(entries)
    ensures r.Ok? ==> r.value == Read(entries) && forall m :: ReadsAs(MemberOf, entries, m, r.value)
    ensures r.Err? ==> r.error == NoCertificate
  {
    var members: Contents := map[];
    var k := 0;
    while k < |entries|
      invariant 0 <= k <= |entries|
      invariant members == Read(entries[..k])
    {
      var e := entries[k];
      assert entries[..k + 1][..k] == entries[..k];
      if e.isFile {
        var name := BaseName(e.name);
        if EndsWith(name, ".bin") {
          var m := Named(name[..|name| - 4]);
          if m.Some? {
            members := members[m.value := e.content];
          }
        }
      }
      k := k + 1;
    }
    assert entries[..k] == entries;
    if Certificate !in members {
      return Err(NoCertificate);
    }
    forall m ensures ReadsAs(MemberOf, entries, m, members) { ReadIsRight(MemberOf, entries, m); }
    return Ok(members);
  }

  /** Which backups can be restored into a row: those taken while the
      certificate file itself was on disk, held a certificate that decodes, and was
      that of the row.  A key on its own is backed up, too, and that archive can
      never be restored. */
  lemma BackupRestorableIff(decode: Decoder, files: Files, paths: Paths, row: Row)
    ensures
      var r := Read(Archived(Material(files, paths), 0));
      Certificate in r && Accepts(decode, row, r[Certificate]) <==>
      OnDisk(files, paths, Certificate) && Accepts(decode, row, files[paths[Certificate]])
    ensures Lacks(MemberOf, Archived(Material(files, paths), 0), Certificate) <==> !OnDisk(files, paths, Certificate)
  {
    var r := Material(files, paths);
    ReadInvertsArchive(r);
    ReadIsRight(MemberOf, Archived(r, 0), Certificate);
  }
}
