/*
 * s2::resourcemanager: loads every model definition (.mdf) of a resource
 * archive and keeps the loaded models by name. The zip archive is a value
 * (its file names in order and their contents), and what tinyxml2 makes of
 * an mdf file is a parameter: the archive and the XML parser are not part
 * of this model.
 */
module Resources {
  import opened Common
  import opened ByteStream
  import opened SmdlFormat
  import SmdlModel

  /** core::zipfile: namebyidx(i) is names[i]; file(name) is null when the
      archive holds no file of that name. */
  datatype Archive = Archive(names: seq<string>, files: map<string, Bytes>)

  function FileData(a: Archive, name: string): (r: Option<Bytes>)
    ensures r.Some? <==> name in a.files
  {
    if name in a.files then Some(a.files[name]) else None
  }

  /** What the mdf text parses to: not XML, no <model> element, a <model>
      without a file attribute, or the value of that attribute. */
  datatype MdfDoc = NotXml | NoModelElement | NoFileAttribute | ModelFile(file: string)

  /** name.ends_with(".mdf") */
  predicate IsMdf(name: string)
  {
    |name| >= 4 && name[|name| - 4..] == ".mdf"
  }

  /** filename.substr(0, filename.find_last_of('/') + 1): everything up to
      and including the last '/', or nothing when there is none (npos + 1
      wraps to 0). */
  function Dir(s: string): (r: string)
    ensures |r| <= |s| && (r == [] || r[|r| - 1] == '/')
    decreases |s|
  {
    if s == [] then []
    else if s[|s| - 1] == '/' then s
    else Dir(s[..|s| - 1])
  }

  /** Dir(s) is the longest prefix of s that ends in '/' (or is empty). */
  lemma {:induction false} DirIsLastSlash(s: string)
    ensures |Dir(s)| <= |s| && Dir(s) == s[..|Dir(s)|]
    ensures Dir(s) == [] || Dir(s)[|Dir(s)| - 1] == '/'
    ensures forall k :: |Dir(s)| <= k < |s| ==> s[k] != '/'
    decreases |s|
  {
    if s != [] && s[|s| - 1] != '/' {
      var t := s[..|s| - 1];
      DirIsLastSlash(t);
      assert t[..|Dir(t)|] == s[..|Dir(t)|];
    }
  }

  /** The model file an mdf names: an attribute starting with '/' is a
      path from the archive root (the '/' dropped), any other is relative
      to the mdf's directory. */
  function ModelPath(filename: string, attr: string): (r: string)
    ensures attr != [] && attr[0] == '/' ==> ['/'] + r == attr
    ensures attr == [] || attr[0] != '/' ==> |r| == |Dir(filename)| + |attr| && r[|Dir(filename)|..] == attr
  {
    if attr != [] && attr[0] == '/' then attr[1..] else Dir(filename) + attr
  }

  /** The map key of a loaded mdf: '/' + filename. */
  function Key(filename: string): (k: string)
    ensures |k| == |filename| + 1 && k[0] == '/' && k[1..] == filename
  {
    "/" + filename
  }

  /** Different mdf names never share a key. */
  lemma KeyInjective(a: string, b: string)
    requires Key(a) == Key(b)
    ensures a == b
  {
    assert a == Key(a)[1..];
  }

  /** s2::model::Load on a model file's bytes: Ok(None) for the null model
      (a bad signature), Fail where the load stops. */
  function ModelOf(mdl: Bytes, fuel: nat): (r: Outcome<Option<ModelValue>>)
    ensures r.Ok? && r.value.Some? <==> LoadSpec(mdl, 0, fuel).Ok?
    ensures r.Ok? && r.value.Some? ==> r.value.value == LoadSpec(mdl, 0, fuel).value
    ensures r.Fail? ==> r.status != NullModel
  {
    match LoadSpec(mdl, 0, fuel)
    case Fail(NullModel) => Ok(None)
    case Fail(st) => Fail(st)
    case Ok(m) => Ok(Some(m))
  }

  /** The model load of LoadMdf, on a stream over the model file. */
  method LoadModelFile(mdl: Bytes, fuel: nat) returns (r: Outcome<Option<SmdlModel.Model>>)
    ensures r.Fail? ==> ModelOf(mdl, fuel) == Fail(r.status)
    ensures r.Ok? && r.value.None? ==> ModelOf(mdl, fuel) == Ok(None)
    ensures r.Ok? && r.value.Some? ==> fresh(r.value.value) && r.value.value.Valid() &&
                                       ModelOf(mdl, fuel) == Ok(Some(r.value.value.Value()))
  {
    var stream := new ByteStream(mdl);
    var model := SmdlModel.Load(stream, fuel);
    if model.Fail? {
      if model.status == NullModel {
        return Ok(None);
      }
      return Fail(model.status);
    }
    r := Ok(Some(model.value));
  }

  /** The steps of LoadMdf up to the model load: the mdf, its XML, the
      model element, its file attribute, the model file and its load. */
  method FindModel(resources: Archive, parse: Bytes -> MdfDoc, filename: string, fuel: nat)
    returns (r: Outcome<Option<SmdlModel.Model>>)
    ensures r.Fail? ==> MdfSpec(resources, parse, filename, fuel) == Fail(r.status)
    ensures r.Ok? && r.value.None? ==> MdfSpec(resources, parse, filename, fuel) == Ok(None)
    ensures r.Ok? && r.value.Some? ==> fresh(r.value.value) && r.value.value.Valid() &&
                                       MdfSpec(resources, parse, filename, fuel) == Ok(Some(r.value.value.Value()))
  {
    var mdfdata := FileData(resources, filename);
    if mdfdata.None? {
      return Ok(None);
    }
    var doc := parse(mdfdata.value);
    if !doc.ModelFile? {
      return Ok(None);
    }
    var mdlfile := ModelPath(filename, doc.file);
    var mdldata := FileData(resources, mdlfile);
    if mdldata.None? {
      return Ok(None);
    }
    r := LoadModelFile(mdldata.value, fuel);
  }

  /** LoadMdf as a value: Ok(None) where it warns and returns false,
      Ok(Some(model)) where it stores the model, and Fail where the model
      load stops (core::error, a read past the end, or out of fuel). A
      null model (a bad signature) is the false return. */
  function MdfSpec(a: Archive, parse: Bytes -> MdfDoc, filename: string, fuel: nat): (r: Outcome<Option<ModelValue>>)
    ensures r.Fail? ==> r.status != NullModel
  {
    match FileData(a, filename)
    case None => Ok(None)
    case Some(mdf) =>
      match parse(mdf)
      case NotXml => Ok(None)
      case NoModelElement => Ok(None)
      case NoFileAttribute => Ok(None)
      case ModelFile(attr) =>
        match FileData(a, ModelPath(filename, attr))
        case None => Ok(None)
        case Some(mdl) =>
          ModelOf(mdl, fuel)
  }

  /** LoadMdf loads a model exactly when the mdf exists and parses to a
      model element with a file attribute, and that model file exists and
      loads; the model is then the loaded one. */
  lemma MdfLoads(a: Archive, parse: Bytes -> MdfDoc, filename: string, fuel: nat)
    ensures var r := MdfSpec(a, parse, filename, fuel);
            r.Ok? && r.value.Some? <==>
              filename in a.files && parse(a.files[filename]).ModelFile? &&
              ModelPath(filename, parse(a.files[filename]).file) in a.files &&
              LoadSpec(a.files[ModelPath(filename, parse(a.files[filename]).file)], 0, fuel).Ok?
    ensures var r := MdfSpec(a, parse, filename, fuel);
            r.Ok? && r.value.Some? ==>
              r.value.value == LoadSpec(a.files[ModelPath(filename, parse(a.files[filename]).file)], 0, fuel).value
  {
  }

  /** The models after one LoadMdf step. */
  function Store(m: map<string, ModelValue>, filename: string, step: Option<ModelValue>): map<string, ModelValue>
  {
    if step.Some? then m[Key(filename) := step.value] else m
  }

  /** LoadResources as a value: each .mdf name in archive order, the
      first stopped load stopping the rest. */
  function LoadAll(a: Archive, parse: Bytes -> MdfDoc, fuel: nat, names: seq<string>,
                   m: map<string, ModelValue>): (r: Outcome<map<string, ModelValue>>)
    ensures r.Ok? ==> m.Keys <= r.value.Keys
    ensures (forall k :: 0 <= k < |names| ==> !IsMdf(names[k])) ==> r == Ok(m)
    decreases |names|
  {
    if names == [] then Ok(m)
    else if !IsMdf(names[0]) then LoadAll(a, parse, fuel, names[1..], m)
    else match MdfSpec(a, parse, names[0], fuel)
      case Fail(st) => Fail(st)
      case Ok(step) => LoadAll(a, parse, fuel, names[1..], Store(m, names[0], step))
  }

  /** The keys an archive's mdf names can add. */
  function MdfKeys(names: seq<string>): set<string>
  {
    set n | n in names && IsMdf(n) :: Key(n)
  }

  /** Loading keeps every model already there unless an mdf of the same
      key replaces it, and adds only keys of mdf names. */
  lemma {:induction false} LoadAllKeys(a: Archive, parse: Bytes -> MdfDoc, fuel: nat, names: seq<string>,
                                       m: map<string, ModelValue>)
    requires LoadAll(a, parse, fuel, names, m).Ok?
    ensures m.Keys <= LoadAll(a, parse, fuel, names, m).value.Keys <= m.Keys + MdfKeys(names)
    ensures forall k :: k in m && k !in MdfKeys(names) ==> LoadAll(a, parse, fuel, names, m).value[k] == m[k]
    decreases |names|
  {
    if names != [] {
      var rest := names[1..];
      assert MdfKeys(rest) <= MdfKeys(names) by {
        forall k | k in MdfKeys(rest)
          ensures k in MdfKeys(names)
        {
          var n :| n in rest && IsMdf(n) && k == Key(n);
          assert n in names;
        }
      }
      if !IsMdf(names[0]) {
        LoadAllKeys(a, parse, fuel, rest, m);
      } else {
        var step := MdfSpec(a, parse, names[0], fuel).value;
        assert Key(names[0]) in MdfKeys(names);
        LoadAllKeys(a, parse, fuel, rest, Store(m, names[0], step));
      }
    }
  }

  /** Names that do not end in ".mdf" are never opened. */
  lemma {:induction false} OthersIgnored(a: Archive, parse: Bytes -> MdfDoc, fuel: nat, names: seq<string>,
                                         other: seq<string>, m: map<string, ModelValue>)
    requires forall k :: 0 <= k < |other| ==> !IsMdf(other[k])
    ensures LoadAll(a, parse, fuel, other + names, m) == LoadAll(a, parse, fuel, names, m)
    decreases |other|
  {
    if other != [] {
      assert (other + names)[1..] == other[1..] + names;
      OthersIgnored(a, parse, fuel, names, other[1..], m);
    } else {
      assert other + names == names;
    }
  }

  class ResourceManager {
    /** mModels: each mdf's model under '/' + the mdf's name. */
    var models: map<string, SmdlModel.Model>

    /** The models' contents by key. */
    function Contents(): map<string, ModelValue>
      reads this, models.Values
    {
      map k | k in models :: models[k].Value()
    }

    /** Every stored model is well shaped. */
    ghost predicate Valid()
      reads this, models.Values
    {
      forall k :: k in models ==> models[k].Valid()
    }

    constructor ()
      ensures Valid() && models == map[]
    {
      models := map[];
    }

    /** LookupModel: the model stored under mdf, or null. */
    function LookupModel(mdf: string): (r: Option<SmdlModel.Model>)
      reads this
      ensures r.Some? <==> mdf in models
      ensures r.Some? ==> r.value == models[mdf]
    {
      if mdf in models then Some(models[mdf]) else None
    }

    /** LoadMdf: read the mdf, find its model file, load that model and
        store it under '/' + filename; any missing piece returns false and
        stores nothing. */
    method LoadMdf(resources: Archive, parse: Bytes -> MdfDoc, filename: string, fuel: nat)
      returns (r: Outcome<bool>)
      requires Valid()
      modifies this
      ensures Valid()
      ensures var spec := MdfSpec(resources, parse, filename, fuel);
              (spec.Fail? ==> r == Fail(spec.status)) &&
              (spec.Ok? ==> r == Ok(spec.value.Some?) && Contents() == Store(old(Contents()), filename, spec.value))
      ensures r == Ok(true) ==> Key(filename) in models && fresh(models[Key(filename)]) &&
                                models == old(models)[Key(filename) := models[Key(filename)]]
      ensures r != Ok(true) ==> models == old(models)
    {
      var model := FindModel(resources, parse, filename, fuel);
      ghost var before := Contents();
      assert before == old(Contents());
      if model.Fail? {
        return Fail(model.status);
      }
      if model.value.None? {
        return Ok(false);
      }
      var m := model.value.value;
      Put(Key(filename), m);
      assert Contents() == Store(before, filename, Some(m.Value()));
      r := Ok(true);
    }

    /** mModels[key] = model: the key now holds model, whatever it held
        before, and every other key keeps its model. */
    method Put(key: string, model: SmdlModel.Model)
      requires Valid() && model.Valid()
      modifies this
      ensures Valid() && models == old(models)[key := model]
      ensures Contents() == old(Contents())[key := model.Value()]
    {
      models := models[key := model];
      assert Contents() == old(Contents())[key := model.Value()];
    }

    /** LoadResources: LoadMdf on every name ending in ".mdf", in archive
        order; a failed mdf is skipped and the result is always true. */
    method LoadResources(resources: Archive, parse: Bytes -> MdfDoc, fuel: nat) returns (r: Outcome<bool>)
      requires Valid()
      modifies this
      ensures Valid()
      ensures var spec := LoadAll(resources, parse, fuel, resources.names, old(Contents()));
              (spec.Fail? ==> r == Fail(spec.status)) && (spec.Ok? ==> r == Ok(true) && Contents() == spec.value)
    {
      var numfiles := |resources.names|;
      var i := 0;
      while i < numfiles
        invariant i <= numfiles && Valid()
        invariant LoadAll(resources, parse, fuel, resources.names[i..], Contents()) ==
                  LoadAll(resources, parse, fuel, resources.names, old(Contents()))
      {
        var name := resources.names[i];
        assert resources.names[i..][1..] == resources.names[i + 1..];
        if IsMdf(name) {
          var loaded := LoadMdf(resources, parse, name, fuel);
          if loaded.Fail? {
            return loaded;
          }
        }
        i := i + 1;
      }
      r := Ok(true);
    }
  }
}
