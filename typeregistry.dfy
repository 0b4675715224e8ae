/*
 * The entity schema: each entity type has a name and an ordered list of
 * typed attributes, each valid for a range of protocol versions. The
 * client's schema database itself is not part of this model; the game takes
 * it as a read-only map from type id to TypeInfo.
 */
module TypeRegistry {

  /** VarType; Unknown carries a code outside the enumeration. */
  datatype VarType =
    | Byte | Short | Int | Single | Qword | Vector3 | String
    | WordEntityIndex | WordHandle | WordAngle | WordFloat | ByteFloat | WordVector3
    | Unknown(code: bv8)

  /** The enumeration's numeric codes. */
  function VarTypeOfCode(c: bv8): (t: VarType)
    ensures t.Unknown? <==> c > 12
  {
    match c
    case 0 => Byte
    case 1 => Short
    case 2 => Int
    case 3 => Single
    case 4 => Qword
    case 5 => Vector3
    case 6 => String
    case 7 => WordEntityIndex
    case 8 => WordHandle
    case 9 => WordAngle
    case 10 => WordFloat
    case 11 => ByteFloat
    case 12 => WordVector3
    case _ => Unknown(c)
  }

  datatype VarInfo = VarInfo(name: string, vtype: VarType, minVersion: bv32, maxVersion: bv32)

  datatype TypeInfo = TypeInfo(name: string, vars: seq<VarInfo>)

  /** The schema database: type id -> type information. */
  type Schema = map<int, TypeInfo>

  /** A field takes part in a protocol version when minversion <= version < maxversion. */
  predicate Applicable(f: VarInfo, version: bv32)
  {
    f.minVersion <= version && version < f.maxVersion
  }

  /** The fields of vars that take part in the given version, in schema order. */
  function ApplicableVars(vars: seq<VarInfo>, version: bv32): (r: seq<VarInfo>)
    ensures |r| <= |vars|
  {
    if vars == [] then []
    else
      var n := |vars| - 1;
      ApplicableVars(vars[..n], version) + (if Applicable(vars[n], version) then [vars[n]] else [])
  }

  /** The filtered list holds exactly the applicable fields of vars. */
  lemma {:induction false} ApplicableMembers(vars: seq<VarInfo>, version: bv32, f: VarInfo)
    ensures f in ApplicableVars(vars, version) <==> f in vars && Applicable(f, version)
  {
    if vars != [] {
      var n := |vars| - 1;
      ApplicableMembers(vars[..n], version, f);
      assert vars == vars[..n] + [vars[n]];
    }
  }

  /** Filtering distributes over appending one more field. */
  lemma ApplicableSnoc(vars: seq<VarInfo>, f: VarInfo, version: bv32)
    ensures ApplicableVars(vars + [f], version)
         == ApplicableVars(vars, version) + (if Applicable(f, version) then [f] else [])
  {
    assert (vars + [f])[..|vars|] == vars;
  }
}
