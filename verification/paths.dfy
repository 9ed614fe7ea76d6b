/** The files under the storage directory. Everything else in the project names them by the
    datatype below; this module proves that the names the program builds tell them apart. */
module Paths {
  import Hex

  type Key = k: int | 0 <= k < 0x1_0000

  datatype Name =
    | IdentityJson
    | DevicesJson
    | Blob(key: Key)

  /** A committed file, or the temporary file that is renamed over it. */
  datatype Path =
    | Real(name: Name)
    | Temp(name: Name)

  /** `format!("k_{key:04x}")`. */
  function KeyName(key: Key): string {
    "k_" + Hex.Encode([key / 256, key % 256])
  }

  function LastDot(s: string): (n: nat)
    ensures n <= |s|
    ensures n < |s| ==> s[n] == '.'
  {
    if s == [] then 0
    else if s[|s| - 1] == '.' then |s| - 1
    else var n := LastDot(s[..|s| - 1]); if n == |s| - 1 then |s| else n
  }

  /** `Path::with_extension` on a file name that does not start with a dot. */
  function WithExtension(file: string, extension: string): string {
    file[..LastDot(file)] + "." + extension
  }

  function FileName(name: Name): string {
    match name
    case IdentityJson => "identity.json"
    case DevicesJson => "devices.json"
    case Blob(key) => KeyName(key)
  }

  /** The temporary name the writer of that file chooses. */
  function TempName(name: Name): string {
    WithExtension(FileName(name), if name.Blob? then "tmp" else "json.tmp")
  }

  /** The path relative to the storage directory. */
  function Render(p: Path): string {
    (if p.name.Blob? then "matter/" else "") + (if p.Real? then FileName(p.name) else TempName(p.name))
  }

  predicate EndsWith(s: string, suffix: string) {
    |suffix| <= |s| && s[|s| - |suffix|..] == suffix
  }

  /** The status command's test for a committed blob in the key-value directory. */
  predicate LooksLikeBlob(file: string) {
    "k_" <= file && !EndsWith(file, ".tmp")
  }

  lemma IdentityTemp()
    ensures WithExtension("identity.json", "json.tmp") == "identity.json" + ".tmp"
  {
    LastDotAt("identity.json", 8);
    assert "identity.json"[..8] + ".json" == "identity.json";
  }

  lemma DevicesTemp()
    ensures WithExtension("devices.json", "json.tmp") == "devices.json" + ".tmp"
  {
    LastDotAt("devices.json", 7);
    assert "devices.json"[..7] + ".json" == "devices.json";
  }

  lemma BlobTemp(key: Key)
    ensures WithExtension(KeyName(key), "tmp") == KeyName(key) + ".tmp"
  {
    NoDot(KeyName(key));
  }

  lemma TempNames(name: Name)
    ensures TempName(name) == FileName(name) + ".tmp"
    ensures name.Blob? ==> |FileName(name)| == 6 && FileName(name)[0] == 'k'
  {
    IdentityTemp();
    DevicesTemp();
    if name.Blob? { BlobTemp(name.key); }
  }

  lemma {:induction false} NoDot(s: string)
    requires forall i :: 0 <= i < |s| ==> s[i] != '.'
    ensures LastDot(s) == |s|
  {
    if s != [] {
      NoDot(s[..|s| - 1]);
    }
  }

  lemma {:induction false} LastDotAt(s: string, n: nat)
    requires n < |s| && s[n] == '.' && forall i :: n < i < |s| ==> s[i] != '.'
    ensures LastDot(s) == n
  {
    if n < |s| - 1 {
      LastDotAt(s[..|s| - 1], n);
    }
  }

  lemma KeyNameInjective(a: Key, b: Key)
    requires KeyName(a) == KeyName(b)
    ensures a == b
  {
    var x, y := [a / 256, a % 256], [b / 256, b % 256];
    assert KeyName(a)[2..] == Hex.Encode(x) && KeyName(b)[2..] == Hex.Encode(y);
    Hex.DecodeInvertsEncode(x);
    Hex.DecodeInvertsEncode(y);
    assert x[0] == y[0] && x[1] == y[1];
  }

  /** No two files share a path: no temporary file can be taken for a committed one, and no
      key's file for another's. */
  lemma RenderInjective(p: Path, q: Path)
    requires Render(p) == Render(q)
    ensures p == q
  {
    TempNames(p.name);
    TempNames(q.name);
    var s := Render(p);
    assert p.name.Blob? ==> s[0] == 'm';
    assert q.name.Blob? ==> s[0] == 'm';
    assert p.name.IdentityJson? ==> s[0] == 'i';
    assert q.name.IdentityJson? ==> s[0] == 'i';
    assert p.name.DevicesJson? ==> s[0] == 'd';
    assert q.name.DevicesJson? ==> s[0] == 'd';
    if p.name.Blob? {
      assert |s| == 13 <==> p.Real?;
      assert |s| == 13 <==> q.Real?;
      assert s[7..13] == FileName(p.name);
      assert s[7..13] == FileName(q.name);
      KeyNameInjective(p.name.key, q.name.key);
    }
  }

  /** Among the files this tool writes there, the status test recognises exactly the committed
      blobs. */
  lemma StatusSeesCommittedBlobs(key: Key)
    ensures LooksLikeBlob(FileName(Blob(key))) && !LooksLikeBlob(TempName(Blob(key)))
  {
    TempNames(Blob(key));
    var f := FileName(Blob(key));
    assert f[2] != '.';
    assert f[|f| - 4..][0] == f[2];
    assert (f + ".tmp")[|f|..] == ".tmp";
  }
}
