/**
 Trust on first use: the store remembers a fingerprint per name, in memory and in a file.
 */
module Tofu {
  import opened Wrappers
  import opened Bytes

  type Prints = map<bytes, bytes>

  /** The file as a later start would see it: missing, a dictionary, or something unreadable. */
  datatype File = Missing | Dictionary(prints: Prints) | Broken

  function Reload(file: File): Prints
  {
    match file
    case Dictionary(prints) => prints
    case _ => map[]
  }

  /** The SHA-256 fingerprint of a key, or None when the key is not base64. */
  type Fingerprint = bytes -> Option<bytes>

  datatype Verdict = New | Same | Changed | BadKey

  class TofuStore {
    const fingerprint: Fingerprint
    var known: Prints
    var file: File

    /** What is in memory is what the file holds. */
    ghost predicate Saved()
      reads this
    {
      Reload(file) == known
    }

    constructor (fingerprint: Fingerprint, file: File)
      ensures this.fingerprint == fingerprint && this.file == file
      ensures Saved() && known == Reload(file)
    {
      this.fingerprint := fingerprint;
      this.file := file;
      known := match file case Dictionary(prints) => prints case _ => map[];
    }

    method Save()
      modifies this`file
      ensures Saved() && file == Dictionary(known)
    {
      file := Dictionary(known);
    }

    method Check(name: bytes, key: bytes) returns (v: Verdict)
      requires Saved()
      modifies this
      ensures Saved()
      ensures v == VerdictOf(fingerprint, old(known), name, key)
      ensures known == Checked(fingerprint, old(known), name, key)
      ensures v != New ==> known == old(known) && file == old(file)
    {
      var fp := fingerprint(key);
      if fp.None? { return BadKey; }
      if name !in known {
        known := known[name := fp.value];
        Save();
        return New;
      }
      if known[name] == fp.value { return Same; }
      v := Changed;
    }

    method Trust(name: bytes, key: bytes) returns (ok: bool)
      requires Saved()
      modifies this
      ensures Saved() && ok == fingerprint(key).Some?
      ensures known == Trusted(fingerprint, old(known), name, key)
    {
      var fp := fingerprint(key);
      if fp.None? { return false; }
      known := known[name := fp.value];
      Save();
      ok := true;
    }
  }

  // ---------------------------------------------------------------- specification

  function VerdictOf(fp: Fingerprint, known: Prints, name: bytes, key: bytes): Verdict
  {
    match fp(key)
    case None => BadKey
    case Some(p) => if name !in known then New else if known[name] == p then Same else Changed
  }

  function Checked(fp: Fingerprint, known: Prints, name: bytes, key: bytes): Prints
  {
    if VerdictOf(fp, known, name, key) == New then known[name := fp(key).value] else known
  }

  function Trusted(fp: Fingerprint, known: Prints, name: bytes, key: bytes): Prints
  {
    match fp(key)
    case None => known
    case Some(p) => known[name := p]
  }

  datatype Use = Check(name: bytes, key: bytes) | Trust(name: bytes, key: bytes)

  function After(fp: Fingerprint, loaded: Prints, uses: seq<Use>): Prints
  {
    if uses == [] then loaded
    else
      var known := After(fp, loaded, uses[..|uses| - 1]);
      match uses[|uses| - 1]
      case Check(name, key) => Checked(fp, known, name, key)
      case Trust(name, key) => Trusted(fp, known, name, key)
  }

  /** The key trusted last for a name, among keys that have a fingerprint. */
  function LastTrusted(fp: Fingerprint, uses: seq<Use>, name: bytes): Option<bytes>
  {
    if uses == [] then None
    else
      var u := uses[|uses| - 1];
      if u.Trust? && u.name == name && fp(u.key).Some? then fp(u.key)
      else LastTrusted(fp, uses[..|uses| - 1], name)
  }

  /** The first key checked for a name. */
  function FirstChecked(fp: Fingerprint, uses: seq<Use>, name: bytes): Option<bytes>
  {
    if uses == [] then None
    else
      var earlier, u := FirstChecked(fp, uses[..|uses| - 1], name), uses[|uses| - 1];
      if earlier.Some? then earlier
      else if u.Check? && u.name == name then fp(u.key)
      else None
  }

  /** What a name should hold: its last trusted key, else its loaded value, else its first checked key. */
  function Expected(fp: Fingerprint, loaded: Prints, uses: seq<Use>, name: bytes): Option<bytes>
  {
    var t := LastTrusted(fp, uses, name);
    if t.Some? then t
    else if name in loaded then Some(loaded[name])
    else FirstChecked(fp, uses, name)
  }

  function Lookup(known: Prints, name: bytes): Option<bytes>
  {
    if name in known then Some(known[name]) else None
  }

  /** Over every run of checks and trusts each name holds what it should. */
  lemma {:induction false} StoreHoldsExpected(fp: Fingerprint, loaded: Prints, uses: seq<Use>, name: bytes)
    ensures Lookup(After(fp, loaded, uses), name) == Expected(fp, loaded, uses, name)
  {
    if uses != [] {
      StoreHoldsExpected(fp, loaded, uses[..|uses| - 1], name);
    }
  }

  /** Hence a check warns exactly when the key's fingerprint is not the expected one. */
  lemma {:induction false} WarningIsExact(fp: Fingerprint, loaded: Prints, uses: seq<Use>, name: bytes, key: bytes)
    requires fp(key).Some?
    ensures var e := Expected(fp, loaded, uses, name);
      && (VerdictOf(fp, After(fp, loaded, uses), name, key) == Changed <==> e.Some? && e != fp(key))
      && (VerdictOf(fp, After(fp, loaded, uses), name, key) == Same <==> e == fp(key))
  {
    StoreHoldsExpected(fp, loaded, uses, name);
  }
}
