/** The migration files of a release: which sets of files are refused, and the order the others run in. */
module MigrationFiles {
  import opened Wrappers

  /**
   * A file's text, with what the rollback pattern and the checksum make of it; rollback "" is a text without such a
   * line.
   */
  datatype Body = Body(blank: bool, rollback: string, checksum: string)

  /** A file found; a body that could not be read is none. */
  datatype File = File(fileName: string, body: Option<Body>)

  datatype Migration = Migration(version: int, name: string, checksum: string, rollback: string)

  datatype Problem =
    | BadName(fileName: string)
    | SharedVersion(other: string, fileName: string, version: int)
    | Unreadable(fileName: string)
    | Blank(fileName: string)
    | UnknownRollback(fileName: string, rollback: string)
    | NoRollback(fileName: string)

  /** The first version that must say its rollback. */
  const FIRST_DECLARED_ROLLBACK := 24

  predicate IsDecimal(c: char) {
    '0' <= c <= '9'
  }

  predicate NameChar(c: char) {
    'a' <= c <= 'z' || IsDecimal(c) || c == '_'
  }

  /** Four digits, an underscore, a name in lower snake case and ".sql". */
  predicate WellNamed(s: string) {
    |s| >= 10 && (forall i :: 0 <= i < 4 ==> IsDecimal(s[i])) && s[4] == '_' &&
    (forall i :: 5 <= i < |s| - 4 ==> NameChar(s[i])) && s[|s| - 4..] == ".sql"
  }

  function Value(c: char): int {
    c as int - '0' as int
  }

  function VersionOf(s: string): int
    requires WellNamed(s)
  {
    1000 * Value(s[0]) + 100 * Value(s[1]) + 10 * Value(s[2]) + Value(s[3])
  }

  function NameOf(s: string): string
    requires WellNamed(s)
  {
    s[5..|s| - 4]
  }

  /** What is wrong with a file's text, if anything. */
  function BodyProblem(f: File): Option<Problem>
    requires WellNamed(f.fileName)
  {
    if f.body.None? then Some(Unreadable(f.fileName))
    else if f.body.value.blank then Some(Blank(f.fileName))
    else
      var rollback := f.body.value.rollback;
      if rollback != "" && rollback != "safe" && rollback != "restore" then Some(UnknownRollback(f.fileName, rollback))
      else if rollback == "" && VersionOf(f.fileName) >= FIRST_DECLARED_ROLLBACK then Some(NoRollback(f.fileName))
      else None
  }

  /** A file that may join the ones before it. */
  predicate Fits(files: seq<File>, i: nat)
    requires i < |files|
  {
    WellNamed(files[i].fileName) && BodyProblem(files[i]).None? &&
    forall j :: 0 <= j < i && WellNamed(files[j].fileName) ==>
      VersionOf(files[j].fileName) != VersionOf(files[i].fileName)
  }

  /** What is said of the first file that does not fit. */
  predicate Says(files: seq<File>, i: nat, p: Problem)
    requires i < |files|
  {
    var f := files[i];
    if !WellNamed(f.fileName) then p == BadName(f.fileName)
    else if p.SharedVersion? then
      p.fileName == f.fileName && p.version == VersionOf(f.fileName) &&
      exists j :: 0 <= j < i && files[j].fileName == p.other && WellNamed(p.other) && VersionOf(p.other) == p.version
    else
      Some(p) == BodyProblem(f) &&
      forall j :: 0 <= j < i && WellNamed(files[j].fileName) ==> VersionOf(files[j].fileName) != VersionOf(f.fileName)
  }

  predicate AllFit(files: seq<File>) {
    forall i :: 0 <= i < |files| ==> Fits(files, i)
  }

  function MigrationOf(f: File): Migration
    requires WellNamed(f.fileName) && f.body.Some?
  {
    Migration(VersionOf(f.fileName), NameOf(f.fileName), f.body.value.checksum, f.body.value.rollback)
  }

  predicate Loaded(f: File, m: Migration) {
    WellNamed(f.fileName) && f.body.Some? && m == MigrationOf(f)
  }

  ghost predicate Ascending(ms: seq<Migration>) {
    forall i, j :: 0 <= i < j < |ms| ==> ms[i].version < ms[j].version
  }

  /** A release: one migration for each file, by version. */
  ghost predicate IsRelease(files: seq<File>, ms: seq<Migration>) {
    Ascending(ms) && |ms| == |files| && forall m :: m in ms <==> exists i :: 0 <= i < |files| && Loaded(files[i], m)
  }

  function Insert(ms: seq<Migration>, m: Migration): seq<Migration> {
    if ms == [] || m.version < ms[0].version then [m] + ms else [ms[0]] + Insert(ms[1..], m)
  }

  lemma {:induction false} InsertSorted(ms: seq<Migration>, m: Migration)
    requires Ascending(ms) && forall i :: 0 <= i < |ms| ==> ms[i].version != m.version
    ensures Ascending(Insert(ms, m)) && |Insert(ms, m)| == |ms| + 1
    ensures forall x :: x in Insert(ms, m) <==> x in ms || x == m
  {
    if ms != [] && ms[0].version < m.version {
      InsertSorted(ms[1..], m);
      assert forall x :: x in ms <==> x == ms[0] || x in ms[1..];
      var rest := Insert(ms[1..], m);
      forall j | 0 <= j < |rest| ensures ms[0].version < rest[j].version {
        assert rest[j] in rest;
      }
    }
  }

  // ---------- What names and texts are accepted

  function DigitOf(n: nat): char
    requires n < 10
  {
    (n + 48) as char
  }

  /** The name of a migration's file, of its version's four digits. */
  function FileName(a: nat, b: nat, c: nat, d: nat, name: string): string
    requires a < 10 && b < 10 && c < 10 && d < 10
  {
    [DigitOf(a), DigitOf(b), DigitOf(c), DigitOf(d)] + "_" + name + ".sql"
  }

  predicate SnakeChar(c: char) {
    c in "abcdefghijklm" || c in "nopqrstuvwxyz" || c in "0123456789" || c == '_'
  }

  predicate SnakeCase(name: string) {
    name != "" && forall i :: 0 <= i < |name| ==> SnakeChar(name[i])
  }

  lemma FirstLetters(c: char)
    ensures 'a' <= c <= 'm' <==> c in "abcdefghijklm"
  {
    if 'a' <= c <= 'm' {
      assert "abcdefghijklm"[c as int - 'a' as int] == c;
    }
  }

  lemma LastLetters(c: char)
    ensures 'n' <= c <= 'z' <==> c in "nopqrstuvwxyz"
  {
    if 'n' <= c <= 'z' {
      assert "nopqrstuvwxyz"[c as int - 'n' as int] == c;
    }
  }

  lemma IsDigit(c: char)
    ensures IsDecimal(c) <==> c in "0123456789"
  {
    if IsDecimal(c) {
      assert "0123456789"[c as int - '0' as int] == c;
    }
  }

  lemma NameCharExactly(c: char)
    ensures NameChar(c) <==> SnakeChar(c)
  {
    FirstLetters(c);
    LastLetters(c);
    IsDigit(c);
  }

  /** Four digits and a name in lower snake case make a name that is accepted, and read as their version and name. */
  lemma NameRead(a: nat, b: nat, c: nat, d: nat, name: string)
    requires a < 10 && b < 10 && c < 10 && d < 10 && SnakeCase(name)
    ensures var s := FileName(a, b, c, d, name);
            WellNamed(s) && VersionOf(s) == 1000 * a + 100 * b + 10 * c + d && NameOf(s) == name
  {
    hide NameChar, SnakeChar;
    var s := FileName(a, b, c, d, name);
    forall i | 5 <= i < |s| - 4 ensures NameChar(s[i]) {
      assert s[i] == name[i - 5];
      NameCharExactly(s[i]);
    }
    assert s[|s| - 4..] == ".sql";
    assert NameOf(s) == name;
  }

  /** No other name is accepted. */
  lemma OnlyNames(s: string) returns (a: nat, b: nat, c: nat, d: nat, name: string)
    requires WellNamed(s)
    ensures a < 10 && b < 10 && c < 10 && d < 10 && SnakeCase(name) && s == FileName(a, b, c, d, name)
  {
    hide NameChar, SnakeChar;
    a, b, c, d, name := Value(s[0]), Value(s[1]), Value(s[2]), Value(s[3]), NameOf(s);
    forall i | 0 <= i < |name| ensures SnakeChar(name[i]) {
      assert name[i] == s[i + 5];
      NameCharExactly(name[i]);
    }
    assert s == s[..4] + [s[4]] + s[5..|s| - 4] + s[|s| - 4..];
  }

  /** The order a directory is listed in. */
  predicate TextBefore(a: string, b: string) {
    b != "" && (a == "" || a[0] < b[0] || (a[0] == b[0] && TextBefore(a[1..], b[1..])))
  }

  lemma {:induction false} FirstDifference(a: string, b: string, k: nat)
    requires k < |a| && k < |b| && a[..k] == b[..k] && a[k] < b[k]
    ensures TextBefore(a, b) && !TextBefore(b, a)
  {
    if k > 0 {
      assert a[0] == a[..k][0] && b[0] == b[..k][0];
      assert a[1..][..k - 1] == a[..k][1..] && b[1..][..k - 1] == b[..k][1..];
      FirstDifference(a[1..], b[1..], k - 1);
    }
  }

  /** Files listed in the order of their names are listed by version. */
  lemma NamesInOrder(a: string, b: string)
    requires WellNamed(a) && WellNamed(b) && VersionOf(a) != VersionOf(b)
    ensures TextBefore(a, b) <==> VersionOf(a) < VersionOf(b)
  {
    hide NameChar, TextBefore;
    var k := if a[0] != b[0] then 0 else if a[1] != b[1] then 1 else if a[2] != b[2] then 2 else 3;
    assert a[..k] == b[..k] && a[k] != b[k];
    if a[k] < b[k] {
      FirstDifference(a, b, k);
    } else {
      FirstDifference(b, a, k);
    }
  }

  /** A text says "safe" or "restore"; only versions below 24 may say nothing. */
  lemma TextsAccepted(f: File)
    requires WellNamed(f.fileName) && f.body.Some? && !f.body.value.blank
    ensures BodyProblem(f).None? <==>
            f.body.value.rollback == "safe" || f.body.value.rollback == "restore" ||
            (f.body.value.rollback == "" && VersionOf(f.fileName) <= 23)
    ensures BodyProblem(f) == Some(NoRollback(f.fileName)) <==>
            f.body.value.rollback == "" && VersionOf(f.fileName) >= 24
    ensures BodyProblem(f).None? || BodyProblem(f) == Some(NoRollback(f.fileName)) ||
            BodyProblem(f) == Some(UnknownRollback(f.fileName, f.body.value.rollback))
  {}

  /** What one file has to be, whatever the others are. */
  predicate IsMigration(f: File) {
    WellNamed(f.fileName) && f.body.Some? && !f.body.value.blank &&
    (f.body.value.rollback == "safe" || f.body.value.rollback == "restore" ||
     (f.body.value.rollback == "" && VersionOf(f.fileName) <= 23))
  }

  /** A release's files are accepted exactly when each is a migration and no two have the same version. */
  lemma AcceptedExactly(files: seq<File>)
    ensures AllFit(files) <==>
            (forall i :: 0 <= i < |files| ==> IsMigration(files[i])) &&
              forall i, j :: 0 <= i < j < |files| && WellNamed(files[i].fileName) && WellNamed(files[j].fileName) ==>
                VersionOf(files[i].fileName) != VersionOf(files[j].fileName)
  {
    hide WellNamed, VersionOf;
    if forall i :: 0 <= i < |files| ==> Fits(files, i) {
      assert forall i :: 0 <= i < |files| ==> Fits(files, i) && IsMigration(files[i]);
    }
  }

  /** A misfit is named with what is wrong with it, and a shared version with the file that had it first. */
  lemma SaysWhy(files: seq<File>, i: nat, p: Problem)
    requires i < |files| && Says(files, i, p)
    ensures p.fileName == files[i].fileName
    ensures p.BadName? <==> !WellNamed(files[i].fileName)
    ensures p.SharedVersion? ==>
              p.version == VersionOf(p.fileName) &&
              exists j :: 0 <= j < i && files[j].fileName == p.other && WellNamed(p.other) &&
                          VersionOf(p.other) == p.version
    ensures !p.BadName? && !p.SharedVersion? ==>
              forall j :: 0 <= j < i && WellNamed(files[j].fileName) ==>
                VersionOf(files[j].fileName) != VersionOf(files[i].fileName)
    ensures match p
            case Unreadable(_) => files[i].body.None?
            case Blank(_) => files[i].body.Some? && files[i].body.value.blank
            case UnknownRollback(_, rollback) =>
              files[i].body.Some? && files[i].body.value.rollback == rollback &&
                rollback != "" && rollback != "safe" && rollback != "restore"
            case NoRollback(_) =>
              files[i].body.Some? && files[i].body.value.rollback == "" && VersionOf(p.fileName) >= 24
            case _ => true
  {
    hide WellNamed, VersionOf;
  }

  /** Reads and checks a release's files without touching a database. */
  method Load(files: seq<File>) returns (r: Result<seq<Migration>, Problem>)
    ensures r.Ok? <==> AllFit(files)
    ensures r.Ok? ==> IsRelease(files, r.value)
    ensures r.Err? ==>
              exists i :: 0 <= i < |files| && Says(files, i, r.error) && forall j :: 0 <= j < i ==> Fits(files, j)
  {
    var seen: map<int, string> := map[];
    var out: seq<Migration> := [];
    for i := 0 to |files|
      invariant forall j :: 0 <= j < i ==> Fits(files, j)
      invariant forall v :: v in seen ==>
                  WellNamed(seen[v]) && VersionOf(seen[v]) == v &&
                    exists j :: 0 <= j < i && files[j].fileName == seen[v]
      invariant forall j :: 0 <= j < i && WellNamed(files[j].fileName) ==> VersionOf(files[j].fileName) in seen
      invariant Ascending(out) && |out| == i
      invariant forall m :: m in out <==> exists j :: 0 <= j < i && Loaded(files[j], m)
    {
      var f := files[i];
      if !WellNamed(f.fileName) {
        assert !Fits(files, i) && Says(files, i, BadName(f.fileName));
        return Err(BadName(f.fileName));
      }
      var version := VersionOf(f.fileName);
      if version in seen {
        var p := SharedVersion(seen[version], f.fileName, version);
        assert !Fits(files, i) && Says(files, i, p);
        return Err(p);
      }
      var problem := BodyProblem(f);
      if problem.Some? {
        assert !Fits(files, i) && Says(files, i, problem.value);
        return Err(problem.value);
      }
      seen := seen[version := f.fileName];
      forall j | 0 <= j < |out| ensures out[j].version != version {
        assert out[j] in out;
      }
      InsertSorted(out, MigrationOf(f));
      out := Insert(out, MigrationOf(f));
    }
    return Ok(out);
  }
}
