/** What the checks on a listed dataset let through, told without them. */
module IndexChecks {
  import opened Json
  import opened Pointer
  import opened DatasetIndex
  import opened ReferencePlaces

  // ---------- letters ----------

  lemma {:induction false} UpperIs(a: string, b: string)
    ensures Upper(a) == Upper(b) <==> SameLetters(a, b)
  {
    if |a| == |b| {
      forall i | 0 <= i < |a|
        ensures Upper(a)[i] == Upper(b)[i] <==> SameLetter(a[i], b[i])
      {
      }
    }
    if Upper(a) == Upper(b) {
      assert |a| == |Upper(a)| && |b| == |Upper(b)|;
      assert forall i :: 0 <= i < |a| ==> Upper(a)[i] == Upper(b)[i];
    }
  }

  predicate HasNoCapital(s: string) {
    forall i :: 0 <= i < |s| ==> !('A' <= s[i] <= 'Z')
  }

  lemma LowerHasNoCapital(s: string)
    ensures HasNoCapital(Lower(s)) && SameLetters(Lower(s), s)
  {
  }

  // ---------- names ----------

  /** A part of a path between two slashes or ends. */
  ghost predicate IsPart(path: string, name: string) {
    exists i: nat, j: nat :: NameAt(path, name, i, j)
  }

  predicate NameAt(path: string, name: string, i: nat, j: nat) {
    PartAt(path, i, j) && path[i..j] == name
  }

  /** A part with its place. */
  predicate PartAt(path: string, i: int, j: int) {
    0 <= i <= j <= |path| && '/' !in path[i..j] && (i > 0 ==> path[i - 1] == '/') && (j < |path| ==> path[j] == '/')
  }

  lemma {:induction false} FirstPart(path: string) returns (j: nat)
    ensures PartAt(path, 0, j) && SplitSlash(path)[0] == path[..j]
    ensures SplitSlash(path) == [path[..j]] + if j < |path| then SplitSlash(path[j + 1..]) else []
  {
    j := 0;
    if path != "" && path[0] != '/' {
      var k := FirstPart(path[1..]);
      assert path[1..][..k] == path[1..k + 1] && path[..k + 1] == [path[0]] + path[1..k + 1];
      assert k < |path[1..]| ==> path[1..][k + 1..] == path[k + 2..];
      j := k + 1;
    } else if path != "" {
      assert path[..0] == "" && path[0 + 1..] == path[1..];
    }
  }

  /** Behind the first slash the parts are the same. */
  lemma PartBehind(path: string, k: nat, i: nat, j: nat)
    requires k < i <= j <= |path| && path[k] == '/'
    ensures PartAt(path, i, j) <==> PartAt(path[k + 1..], i - k - 1, j - k - 1)
    ensures path[i..j] == path[k + 1..][i - k - 1..j - k - 1]
  {
    var rest := path[k + 1..];
    assert path[i..j] == rest[i - k - 1..j - k - 1];
    assert path[i - 1] == if i == k + 1 then path[k] else rest[i - k - 2];
    assert j < |path| ==> path[j] == rest[j - k - 1];
  }

  lemma {:induction false} PartsAre(path: string, name: string)
    ensures name in SplitSlash(path) <==> IsPart(path, name)
    decreases |path|
  {
    var k := FirstPart(path);
    hide SplitSlash, PartAt, NameAt;
    FirstIsPart(path, name, k);
    if k < |path| {
      var rest := path[k + 1..];
      PartsAre(rest, name);
      FirstEnds(path, k);
      if IsPart(rest, name) {
        var i: nat, j: nat :| NameAt(rest, name, i, j);
        PartIn(rest, name, i, j);
        NameBehind(path, name, k, i + k + 1, j + k + 1);
      }
    }
    if IsPart(path, name) {
      var i: nat, j: nat :| NameAt(path, name, i, j);
      PartIn(path, name, i, j);
      PartIsFirstOrLater(path, k, i, j);
      if i > k {
        FirstEnds(path, k);
        NameBehind(path, name, k, i, j);
      }
    }
  }

  lemma NameBehind(path: string, name: string, k: nat, i: nat, j: nat)
    requires k < i <= j <= |path| && path[k] == '/'
    ensures NameAt(path, name, i, j) <==> NameAt(path[k + 1..], name, i - k - 1, j - k - 1)
  {
    PartBehind(path, k, i, j);
  }

  lemma FirstIsPart(path: string, name: string, k: nat)
    requires PartAt(path, 0, k)
    ensures k <= |path| && (NameAt(path, name, 0, k) <==> name == path[..k])
  {
    assert path[0..k] == path[..k];
  }

  lemma PartIn(path: string, name: string, i: nat, j: nat)
    requires NameAt(path, name, i, j)
    ensures i <= j <= |path| && PartAt(path, i, j)
  {
  }

  lemma FirstEnds(path: string, k: nat)
    requires PartAt(path, 0, k) && k < |path|
    ensures path[k] == '/'
  {
  }

  lemma PartIsFirstOrLater(path: string, k: nat, i: nat, j: nat)
    requires PartAt(path, 0, k) && PartAt(path, i, j)
    ensures (i == 0 && j == k) || (i > k && k < |path|)
  {
    assert forall n :: 0 <= n < k ==> path[n] == path[0..k][n];
    assert forall n :: i <= n < j ==> path[n] == path[i..j][n - i];
  }

  // ---------- portable names ----------

  const DEVICES: seq<string> := [
    "CON", "PRN", "AUX", "NUL", "COM1", "COM2", "COM3", "COM4", "COM5", "COM6", "COM7", "COM8", "COM9",
    "LPT1", "LPT2", "LPT3", "LPT4", "LPT5", "LPT6", "LPT7", "LPT8", "LPT9"]

  /** The name, up to its first dot and in any case, is that of a device. */
  predicate NamesDevice(name: string) {
    exists n, d :: 0 <= n <= |name| && 0 <= d < |DEVICES| && '.' !in name[..n] && (n < |name| ==> name[n] == '.')
                   && SameLetters(name[..n], DEVICES[d])
  }

  lemma {:induction false} StemIs(name: string) returns (n: nat)
    ensures n <= |name| && Stem(name) == name[..n] && '.' !in name[..n] && (n < |name| ==> name[n] == '.')
  {
    n := 0;
    if name != "" && name[0] != '.' {
      n := StemIs(name[1..]);
      assert name[..n + 1] == [name[0]] + name[1..][..n];
      n := n + 1;
    }
  }

  lemma {:induction false} IsDeviceAt(stem: string) returns (d: nat)
    requires IsDevice(stem)
    ensures d < |DEVICES| && DEVICES[d] == stem
  {
    if |stem| == 4 {
      var digit := stem[3] as int - '0' as int;
      d := if stem[..3] == "COM" then 3 + digit else 12 + digit;
      assert stem == stem[..3] + [stem[3]];
      assert DEVICES[d][..3] == stem[..3] && DEVICES[d][3] == stem[3];
      assert DEVICES[d] == DEVICES[d][..3] + [DEVICES[d][3]];
    } else {
      d := if stem == "CON" then 0 else if stem == "PRN" then 1 else if stem == "AUX" then 2 else 3;
    }
  }

  lemma DevicesAre(d: nat)
    requires d < |DEVICES|
    ensures IsDevice(DEVICES[d]) && Upper(DEVICES[d]) == DEVICES[d]
  {
    var name := DEVICES[d];
    assert |name| == 3 || (name[..3] == (if d < 13 then "COM" else "LPT") && '1' <= name[3] <= '9');
  }

  lemma {:induction false} DeviceNamed(name: string)
    ensures IsDevice(Upper(Stem(name))) <==> NamesDevice(name)
  {
    var n := StemIs(name);
    hide Upper, Stem, IsDevice, DEVICES, SameLetters;
    if IsDevice(Upper(name[..n])) {
      var d := IsDeviceAt(Upper(name[..n]));
      DevicesAre(d);
      UpperIs(name[..n], DEVICES[d]);
    }
    if NamesDevice(name) {
      var k, d :| 0 <= k <= |name| && 0 <= d < |DEVICES| && '.' !in name[..k] && (k < |name| ==> name[k] == '.')
                  && SameLetters(name[..k], DEVICES[d]);
      assert k == n by {
        assert forall i :: 0 <= i < k ==> name[i] == name[..k][i];
        assert forall i :: 0 <= i < n ==> name[i] == name[..n][i];
      }
      UpperIs(name[..k], DEVICES[d]);
      DevicesAre(d);
    }
  }

  /** A name that a file can have everywhere. */
  predicate Portable(name: string) {
    && name !in {"", ".", ".."} && name[|name| - 1] !in {' ', '.'} && !NamesDevice(name)
    && forall c :: c in name ==> c >= ' ' && !('\U{007F}' <= c <= '\U{009F}') && c !in "<>:\"|?*"
  }

  lemma PortableIs(name: string)
    ensures PortableName(name) <==> Portable(name)
  {
    DeviceNamed(name);
    hide IsDevice, NamesDevice, Upper, Stem;
    forall i | 0 <= i < |name|
      ensures name[i] in name
    {
    }
  }

  // ---------- one dataset ----------

  predicate IsHash(s: string) {
    |s| == 64 && forall c :: c in s ==> '0' <= c <= '9' || 'a' <= c <= 'f' || 'A' <= c <= 'F'
  }

  ghost predicate IsSafe(path: string) {
    '\\' !in path && forall name :: IsPart(path, name) ==> Portable(name)
  }

  /** A dataset passes the checks exactly when its fields are filled in, its hashes are hashes and every part of its
      path is a portable name. */
  lemma {:induction false} FlawlessIff(e: RawEntry)
    ensures Flaw(e).None? <==>
            && IsHash(e.sha256) && IsHash(e.contentHash) && IsSafe(e.path)
            && e.datasetType != "" && e.role != "" && e.uuid != "" && e.version != ""
  {
    HashIs(e.sha256);
    HashIs(e.contentHash);
    SafeIs(e.path);
    hide ValidHash, IsHash, SafePath, IsSafe;
  }

  /** The reason is so, and it is the first one in the order of the checks. */
  lemma {:induction false} FlawIsSo(e: RawEntry)
    requires Flaw(e).Some?
    ensures match Flaw(e).value
            case InvalidHash(hash) =>
              !IsHash(hash) && hash == if IsHash(e.sha256) then e.contentHash else e.sha256
            case UnsafePath(path) => path == e.path && !IsSafe(path) && IsHash(e.sha256) && IsHash(e.contentHash)
            case EmptyField(field) =>
              && IsSafe(e.path) && IsHash(e.sha256) && IsHash(e.contentHash)
              && ((field == "datasetType" && e.datasetType == "")
                  || (field == "role" && e.role == "" && e.datasetType != "")
                  || (field == "uuid" && e.uuid == "" && e.datasetType != "" && e.role != "")
                  || (field == "version" && e.version == "" && e.datasetType != "" && e.role != "" && e.uuid != ""))
            case _ => false
  {
    HashIs(e.sha256);
    HashIs(e.contentHash);
    SafeIs(e.path);
    hide ValidHash, IsHash, SafePath, IsSafe;
  }

  lemma HashIs(s: string)
    ensures ValidHash(s) <==> IsHash(s)
  {
    forall i | 0 <= i < |s|
      ensures s[i] in s
    {
    }
  }

  lemma SafeIs(path: string)
    ensures SafePath(path) <==> IsSafe(path)
  {
    hide SplitSlash, PortableName, Portable, IsPart;
    forall name
      ensures name in SplitSlash(path) <==> IsPart(path, name)
      ensures PortableName(name) <==> Portable(name)
    {
      PartsAre(path, name);
      PortableIs(name);
    }
    if path == "" {
      NothingIsUnsafe();
    }
  }

  lemma NothingIsUnsafe()
    ensures IsPart("", "") && !Portable("")
  {
    assert ""[0..0] == "";
    assert NameAt("", "", 0, 0);
  }

  /** What is kept of a dataset is what was listed, with the identity and the hashes in small letters. */
  lemma KeptIs(e: RawEntry)
    ensures var kept := Kept(e);
            && kept.datasetType == e.datasetType && kept.role == e.role && kept.version == e.version && kept.relativePath == e.path
            && SameLetters(kept.uuid, e.uuid) && HasNoCapital(kept.uuid)
            && SameLetters(kept.sha256, e.sha256) && HasNoCapital(kept.sha256)
            && SameLetters(kept.contentHash, e.contentHash) && HasNoCapital(kept.contentHash)
  {
    LowerHasNoCapital(e.uuid);
    LowerHasNoCapital(e.sha256);
    LowerHasNoCapital(e.contentHash);
  }
}
