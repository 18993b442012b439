/** The method catalogue of `getMethods` and the defaulting pass that the
    `PrayTimes` constructor runs over it (src/PrayTimes.js). */
module Catalog {
  import opened RuleValues

  /** A calculation method: a display name and its rule values. */
  datatype Method = Method(name: string, params: map<string, Value>)

  /** The catalogue keys in declaration order, the order in which the
      preferences dialog lists them. */
  const CatalogKeys: seq<string> := ["ISNA", "Egypt", "Tehran", "MWL", "Makkah", "Karachi"]

  /** The method used when the constructor is given an unknown name. */
  const FallbackMethod: string := "MWL"

  /** `getMethods()`: the catalogue as declared, before defaulting. */
  function GetMethods(): map<string, Method>
  {
    map[
      "ISNA" := Method("Islamic Society of North America (ISNA)",
                       map["fajr" := Num(15.0), "isha" := Num(15.0)]),
      "Egypt" := Method("Egyptian General Authority of Survey",
                        map["fajr" := Num(19.5), "isha" := Num(17.5)]),
      "Tehran" := Method("Institute of Geophysics, University of Tehran",
                         map["fajr" := Num(17.7), "isha" := Num(14.0),
                             "maghrib" := Num(4.5), "midnight" := Str("Jafari")]),
      "MWL" := Method("Muslim World League",
                      map["fajr" := Num(18.0), "isha" := Num(17.0)]),
      "Makkah" := Method("Umm Al-Qura University, Makkah",
                         map["fajr" := Num(18.5), "isha" := Str("90 min")]),
      "Karachi" := Method("University of Islamic Sciences, Karachi",
                          map["fajr" := Num(18.0), "isha" := Num(18.0)])
    ]
  }

  /** The catalogue holds the six keys; every method fixes a Fajr angle and
      an Isha rule, and only Tehran gives its own Maghrib and Midnight rules. */
  lemma DeclaredRules()
    ensures GetMethods().Keys == set k | k in CatalogKeys
    ensures forall k :: k in GetMethods() ==> "fajr" in GetMethods()[k].params && "isha" in GetMethods()[k].params
    ensures forall k :: k in GetMethods() && k != "Tehran" ==> GetMethods()[k].params.Keys == {"fajr", "isha"}
  {
  }

  /** `defaultParams`, in the order the defaulting loop visits them. */
  const DefaultParamKeys: seq<string> := ["maghrib", "midnight"]

  const DefaultParams: map<string, Value> := map["maghrib" := Str("0 min"), "midnight" := Str("Standard")]

  /** `typeof params[key] == 'undefined'`: the key is absent or holds undefined. */
  predicate IsMissing(params: map<string, Value>, key: string)
  {
    key !in params || params[key].Undefined?
  }

  /** A method's rules after defaulting: a default fills a rule only where the
      method leaves it missing, so every explicit value wins. */
  function WithDefaults(params: map<string, Value>): map<string, Value>
  {
    map k | k in params.Keys + DefaultParams.Keys ::
      if k in DefaultParams && IsMissing(params, k) then DefaultParams[k] else params[k]
  }

  /** Defaulting adds exactly the default keys, keeps every explicit value
      and fills the default exactly where the method leaves a rule missing. */
  lemma WithDefaultsKeeps(params: map<string, Value>)
    ensures WithDefaults(params).Keys == params.Keys + DefaultParams.Keys
    ensures forall k :: k in params && !params[k].Undefined? ==> WithDefaults(params)[k] == params[k]
    ensures forall k :: k in DefaultParams && IsMissing(params, k) ==> WithDefaults(params)[k] == DefaultParams[k]
  {
  }

  /** The whole catalogue after defaulting; names are untouched. */
  function Defaulted(methods: map<string, Method>): map<string, Method>
  {
    map k | k in methods :: Method(methods[k].name, WithDefaults(methods[k].params))
  }

  /** The inner defaulting loop for one method: for every default key, store
      the default where the method's value is missing. */
  method FillMethodDefaults(params: map<string, Value>) returns (r: map<string, Value>)
    ensures r == WithDefaults(params)
  {
    r := params;
    for j := 0 to |DefaultParamKeys|
      invariant forall key :: key in r <==> key in params || key in DefaultParamKeys[..j]
      invariant forall key :: key in r ==>
        r[key] == if key in DefaultParamKeys[..j] && IsMissing(params, key) then DefaultParams[key] else params[key]
    {
      var key := DefaultParamKeys[j];
      assert DefaultParamKeys[..j + 1] == DefaultParamKeys[..j] + [key];
      if IsMissing(r, key) {
        r := r[key := DefaultParams[key]];
      }
    }
    assert DefaultParamKeys[..|DefaultParamKeys|] == DefaultParamKeys;
    assert forall key :: key in DefaultParamKeys <==> key in DefaultParams;
  }

  /** The defaulting loop of the constructor, over every method of the catalogue. */
  method FillDefaults(methods: map<string, Method>) returns (r: map<string, Method>)
    ensures r == Defaulted(methods)
  {
    r := methods;
    var pending := methods.Keys;
    while pending != {}
      invariant pending <= methods.Keys && r.Keys == methods.Keys
      invariant forall k :: k in pending ==> r[k] == methods[k]
      invariant forall k :: k in methods && k !in pending ==>
        r[k] == Method(methods[k].name, WithDefaults(methods[k].params))
      decreases pending
    {
      var k :| k in pending;
      var params := FillMethodDefaults(r[k].params);
      r := r[k := Method(r[k].name, params)];
      pending := pending - {k};
    }
    assert r.Keys == Defaulted(methods).Keys;
  }

  /** Every defaulted method carries the four rules the pipeline reads. */
  lemma DefaultedRules()
    ensures Defaulted(GetMethods()).Keys == GetMethods().Keys
    ensures forall k :: k in Defaulted(GetMethods()) ==>
      {"fajr", "isha", "maghrib", "midnight"} <= Defaulted(GetMethods())[k].params.Keys
  {
    DeclaredRules();
    forall k | k in Defaulted(GetMethods())
      ensures {"fajr", "isha", "maghrib", "midnight"} <= Defaulted(GetMethods())[k].params.Keys
    {
      assert Defaulted(GetMethods())[k].params == WithDefaults(GetMethods()[k].params);
      WithDefaultsKeeps(GetMethods()[k].params);
    }
  }

  /** Defaulting keeps a method's declared Fajr and Isha rules. */
  lemma DefaultedKeeps(k: string)
    requires k in GetMethods()
    ensures k in Defaulted(GetMethods())
    ensures Get(Defaulted(GetMethods())[k].params, "fajr") == Get(GetMethods()[k].params, "fajr")
    ensures Get(Defaulted(GetMethods())[k].params, "isha") == Get(GetMethods()[k].params, "isha")
  {
    var m := GetMethods();
    assert Defaulted(m)[k].params == WithDefaults(m[k].params);
  }

  /** After defaulting, Tehran keeps its own Maghrib and Midnight rules,
      4.5 and "Jafari". */
  lemma DefaultedTehran()
    ensures "Tehran" in Defaulted(GetMethods())
    ensures Get(Defaulted(GetMethods())["Tehran"].params, "maghrib") == Num(4.5)
    ensures Get(Defaulted(GetMethods())["Tehran"].params, "midnight") == Str("Jafari")
  {
    var m := GetMethods();
    assert Defaulted(m)["Tehran"].params == WithDefaults(m["Tehran"].params);
  }

  /** After defaulting, a method that declares no Maghrib or Midnight rule
      receives "0 min" and "Standard". */
  lemma DefaultedOther(k: string)
    requires k in GetMethods() && k != "Tehran"
    ensures Get(Defaulted(GetMethods())[k].params, "maghrib") == Str("0 min")
    ensures Get(Defaulted(GetMethods())[k].params, "midnight") == Str("Standard")
  {
    var m := GetMethods();
    DeclaredRules();
    assert Defaulted(m)[k].params == WithDefaults(m[k].params);
    assert IsMissing(m[k].params, "maghrib") && IsMissing(m[k].params, "midnight");
  }
}
