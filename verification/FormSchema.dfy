/** The source-type schema of the activity form: gas types and methodologies filled in from the
    configuration elements, and the cache in front of it. */
module FormSchema {
  import opened Prelude
  import opened Decimals

  /* ---------- configuration data ---------- */

  datatype Gas = Gas(id: nat, name: string, formula: string)

  datatype Methodology = Methodology(id: nat, name: string)

  /** An empty title or unit stands for an absent one. */
  datatype ReportingField = ReportingField(slug: string, fieldType: string, title: string, name: string, units: string)

  datatype Property =
    | MethodologyName(name: string)
    | FieldProperty(fieldType: string, title: string, units: string)
    | CustomProperty(json: string)

  type Properties = map<string, Property>

  datatype Element = Element(
    activity: nat, sourceType: nat,
    gas: Gas, methodology: Methodology,
    custom: Option<Properties>,
    fields: seq<ReportingField>,
    validFrom: nat, validTo: nat)

  /** What a schema is asked for. */
  datatype Request = Request(config: nat, activity: nat, sourceType: nat)

  predicate ValidFor(e: Element, r: Request) {
    e.activity == r.activity && e.sourceType == r.sourceType && e.validFrom <= r.config <= e.validTo
  }

  /* ---------- the schema ---------- */

  /** One gas type of the form: its enum, the enum of methodologies and one branch per methodology. */
  datatype GasOption = GasOption(gasEnum: seq<string>, methodologyEnum: seq<string>, methodologies: seq<Properties>)

  const NOT_APPLICABLE: string := "Not Applicable"

  function FieldProperties(base: Properties, fields: seq<ReportingField>): Properties {
    if fields == [] then base
    else
      var f := fields[|fields| - 1];
      FieldProperties(base, fields[..|fields| - 1])[f.slug :=
        FieldProperty(f.fieldType, if f.title != "" then f.title else f.name, f.units)]
  }

  /** The branch of one methodology: the custom schema if there is one, else the reporting fields. */
  function Branch(e: Element, fields: seq<ReportingField>): Properties {
    var base := map["methodology" := MethodologyName(e.methodology.name)];
    match e.custom
    case Some(custom) => base + custom
    case None => FieldProperties(base, fields)
  }

  /** The fields remembered under a (gas, methodology) key: later elements overwrite earlier ones. */
  function FieldsUnder(fetched: seq<Element>, gas: nat, methodology: nat): Option<seq<ReportingField>> {
    if fetched == [] then None
    else
      var last := fetched[|fetched| - 1];
      if last.gas.id == gas && last.methodology.id == methodology then Some(last.fields)
      else FieldsUnder(fetched[..|fetched| - 1], gas, methodology)
  }

  function OfGas(fetched: seq<Element>, gas: nat): seq<Element> {
    if fetched == [] then []
    else
      var last := fetched[|fetched| - 1];
      OfGas(fetched[..|fetched| - 1], gas) + if last.gas.id == gas then [last] else []
  }

  lemma {:induction false} OfGasIs(fetched: seq<Element>, gas: nat, e: Element)
    ensures e in OfGas(fetched, gas) <==> e in fetched && e.gas.id == gas
    ensures e in OfGas(fetched, gas) ==> FieldsUnder(fetched, gas, e.methodology.id).Some?
  {
    if fetched != [] {
      OfGasIs(fetched[..|fetched| - 1], gas, e);
      assert fetched == fetched[..|fetched| - 1] + [fetched[|fetched| - 1]];
    }
  }

  function FieldsOr(fetched: seq<Element>, gas: nat, methodology: nat): seq<ReportingField> {
    match FieldsUnder(fetched, gas, methodology)
    case None => []
    case Some(fields) => fields
  }

  /** The finished option of one gas type. */
  function OptionFor(gas: Gas, fetched: seq<Element>, notApplicable: bool): GasOption {
    var elements := OfGas(fetched, gas.id);
    GasOption([gas.formula],
      seq(|elements|, i requires 0 <= i < |elements| => elements[i].methodology.name)
        + (if notApplicable then [NOT_APPLICABLE] else []),
      seq(|elements|, i requires 0 <= i < |elements| =>
        Branch(elements[i], FieldsOr(fetched, gas.id, elements[i].methodology.id)))
        + (if notApplicable then [map["methodology" := MethodologyName(NOT_APPLICABLE)]] else []))
  }

  class SchemaBuilder {
    var gasEnum: seq<string>
    var oneOf: seq<GasOption>

    constructor ()
      ensures gasEnum == [] && oneOf == []
    {
      gasEnum, oneOf := [], [];
    }

    /** Fills in the methodologies of the option at the given index. */
    method HandleMethodologies(gas: nat, fetched: seq<Element>, elements: seq<Element>, index: nat, notApplicable: bool)
      returns (found: bool)
      requires index < |oneOf|
      modifies this`oneOf
      ensures found <==> forall e | e in elements :: FieldsUnder(fetched, gas, e.methodology.id).Some?
      ensures !found ==> oneOf == old(oneOf)
      ensures found ==>
        |oneOf| == |old(oneOf)| && forall k | 0 <= k < |oneOf| && k != index :: oneOf[k] == old(oneOf)[k]
      ensures found ==>
        var tail := if notApplicable then 1 else 0;
        && oneOf[index].gasEnum == old(oneOf)[index].gasEnum
        && |oneOf[index].methodologyEnum| == |oneOf[index].methodologies| == |elements| + tail
        && (forall k | 0 <= k < |elements| ::
              && oneOf[index].methodologyEnum[k] == elements[k].methodology.name
              && oneOf[index].methodologies[k] ==
                 Branch(elements[k], FieldsOr(fetched, gas, elements[k].methodology.id)))
        && (notApplicable ==>
              && oneOf[index].methodologyEnum[|elements|] == NOT_APPLICABLE
              && oneOf[index].methodologies[|elements|] == map["methodology" := MethodologyName(NOT_APPLICABLE)])
    {
      var names: seq<string>, branches: seq<Properties> := [], [];
      for i := 0 to |elements|
        invariant forall e | e in elements[..i] :: FieldsUnder(fetched, gas, e.methodology.id).Some?
        invariant |names| == |branches| == i
        invariant forall k | 0 <= k < i ::
          names[k] == elements[k].methodology.name
          && branches[k] == Branch(elements[k], FieldsOr(fetched, gas, elements[k].methodology.id))
        invariant oneOf == old(oneOf)
      {
        var e := elements[i];
        names := names + [e.methodology.name];
        var fields := FieldsUnder(fetched, gas, e.methodology.id);
        if fields.None? {
          return false;
        }
        branches := branches + [Branch(e, fields.value)];
        assert elements[..i + 1] == elements[..i] + [e];
      }
      assert elements[..|elements|] == elements;
      if notApplicable {
        names := names + [NOT_APPLICABLE];
        branches := branches + [map["methodology" := MethodologyName(NOT_APPLICABLE)]];
      }
      oneOf := oneOf[index := oneOf[index].(methodologyEnum := names)];
      oneOf := oneOf[index := oneOf[index].(methodologies := branches)];
      return true;
    }

    /** One option per gas type, appended and then filled in by index. It fails exactly when the second
        query returned no element for a gas type of the first; that a (gas, methodology) key is missing
        cannot happen. */
    method HandleGasTypes(gases: seq<Gas>, fetched: seq<Element>, notApplicable: bool) returns (found: bool)
      requires gasEnum == [] && oneOf == []
      modifies this
      ensures found <==> forall gas | gas in gases :: OfGas(fetched, gas.id) != []
      ensures found ==> |gasEnum| == |oneOf| == |gases|
      ensures found ==> forall i | 0 <= i < |gases| ::
        gasEnum[i] == gases[i].formula && oneOf[i] == OptionFor(gases[i], fetched, notApplicable)
    {
      for i := 0 to |gases|
        invariant forall gas | gas in gases[..i] :: OfGas(fetched, gas.id) != []
        invariant |gasEnum| == |oneOf| == i
        invariant forall k | 0 <= k < i ::
          gasEnum[k] == gases[k].formula && oneOf[k] == OptionFor(gases[k], fetched, notApplicable)
      {
        var gas := gases[i];
        gasEnum := gasEnum + [gas.formula];
        var elements := OfGas(fetched, gas.id);
        if elements == [] {
          return false;
        }
        oneOf := oneOf + [GasOption([gas.formula], [], [])];
        ghost var appended := oneOf;
        forall e | e in elements {
          OfGasIs(fetched, gas.id, e);
        }
        var all := HandleMethodologies(gas.id, fetched, elements, i, notApplicable);
        assert all;
        assert oneOf[i].methodologyEnum == OptionFor(gas, fetched, notApplicable).methodologyEnum;
        assert oneOf[i].methodologies == OptionFor(gas, fetched, notApplicable).methodologies;
        assert forall k | 0 <= k < i :: oneOf[k] == appended[k];
        assert gases[..i + 1] == gases[..i] + [gas];
      }
      assert gases[..|gases|] == gases;
      return true;
    }
  }

  /* ---------- the two queries, and what the schema offers ---------- */

  predicate Valid(catalog: set<Element>, r: Request, e: Element) {
    e in catalog && ValidFor(e, r)
  }

  /** First query: for each distinct gas name among the valid elements, the gas of one of them. */
  ghost predicate GasQuery(catalog: set<Element>, r: Request, kept: map<string, Gas>, gases: seq<Gas>) {
    && (forall e | Valid(catalog, r, e) :: e.gas.name in kept)
    && (forall name | name in kept ::
          kept[name].name == name && exists e :: Valid(catalog, r, e) && e.gas == kept[name])
    && (forall gas :: gas in gases <==> gas.name in kept && gas == kept[gas.name])
  }

  /** Second query: the valid elements of those gas types, in any order. */
  ghost predicate ElementQuery(catalog: set<Element>, r: Request, gases: seq<Gas>, fetched: seq<Element>) {
    forall e :: e in fetched <==> Valid(catalog, r, e) && exists gas | gas in gases :: gas.id == e.gas.id
  }

  /** The id of a gas type determines its row. */
  predicate GasesKeyed(catalog: set<Element>) {
    forall e, e' | e in catalog && e' in catalog && e.gas.id == e'.gas.id :: e.gas == e'.gas
  }

  /** When both queries read the same elements, no "no configuration found" branch is reached. */
  lemma OneSnapshotAlwaysFound(catalog: set<Element>, r: Request, kept: map<string, Gas>, gases: seq<Gas>,
                               fetched: seq<Element>)
    requires GasQuery(catalog, r, kept, gases) && ElementQuery(catalog, r, gases, fetched)
    ensures forall gas | gas in gases :: OfGas(fetched, gas.id) != []
  {
    forall gas | gas in gases ensures OfGas(fetched, gas.id) != [] {
      var e :| Valid(catalog, r, e) && e.gas == gas;
      assert e in fetched;
      OfGasIs(fetched, gas.id, e);
    }
  }

  /** The form offers this methodology for this gas. */
  predicate Offers(gases: seq<Gas>, fetched: seq<Element>, notApplicable: bool, gas: Gas, methodology: string) {
    gas in gases && methodology in OptionFor(gas, fetched, notApplicable).methodologyEnum
  }

  lemma OffersItsElements(gases: seq<Gas>, fetched: seq<Element>, notApplicable: bool, gas: Gas, methodology: string)
    requires gas in gases
    ensures Offers(gases, fetched, notApplicable, gas, methodology) <==>
      || (exists e | e in OfGas(fetched, gas.id) :: e.methodology.name == methodology)
      || (notApplicable && methodology == NOT_APPLICABLE)
  {
    var elements, names := OfGas(fetched, gas.id), OptionFor(gas, fetched, notApplicable).methodologyEnum;
    assert forall k | 0 <= k < |elements| :: names[k] == elements[k].methodology.name;
    if notApplicable {
      assert names[|elements|] == NOT_APPLICABLE;
    }
  }

  lemma FetchedOfGas(catalog: set<Element>, r: Request, gases: seq<Gas>, fetched: seq<Element>, g: Element, e: Element)
    requires GasesKeyed(catalog) && ElementQuery(catalog, r, gases, fetched) && g in catalog && g.gas in gases
    ensures e in OfGas(fetched, g.gas.id) <==> Valid(catalog, r, e) && e.gas == g.gas
  {
    OfGasIs(fetched, g.gas.id, e);
    assert e in fetched <==> Valid(catalog, r, e) && exists gas | gas in gases :: gas.id == e.gas.id;
  }

  /** The choices are exactly the valid elements, plus "Not Applicable" for every gas if flagged. */
  lemma ChoicesExact(catalog: set<Element>, r: Request, kept: map<string, Gas>, gases: seq<Gas>, fetched: seq<Element>,
                     notApplicable: bool, gas: Gas, methodology: string)
    requires GasesKeyed(catalog) && GasQuery(catalog, r, kept, gases) && ElementQuery(catalog, r, gases, fetched)
      && gas in gases
    ensures Offers(gases, fetched, notApplicable, gas, methodology) <==>
      || (exists e :: Valid(catalog, r, e) && e.gas == gas && e.methodology.name == methodology)
      || (notApplicable && methodology == NOT_APPLICABLE)
  {
    OffersItsElements(gases, fetched, notApplicable, gas, methodology);
    var g :| Valid(catalog, r, g) && g.gas == gas;
    if e :| e in OfGas(fetched, gas.id) && e.methodology.name == methodology {
      FetchedOfGas(catalog, r, gases, fetched, g, e);
    }
    if e :| Valid(catalog, r, e) && e.gas == gas && e.methodology.name == methodology {
      FetchedOfGas(catalog, r, gases, fetched, g, e);
    }
  }

  /** No two gas types of the valid elements share a name. */
  ghost predicate NamesTellGasesApart(catalog: set<Element>, r: Request) {
    forall e, e' | Valid(catalog, r, e) && Valid(catalog, r, e') && e.gas.name == e'.gas.name :: e.gas == e'.gas
  }

  /** The first query keeps one gas per name, so every valid element has its gas offered exactly when
      no two valid gas types share a name. */
  lemma EveryGasOfferedIff(catalog: set<Element>, r: Request, kept: map<string, Gas>, gases: seq<Gas>)
    requires GasQuery(catalog, r, kept, gases)
    ensures (forall e | Valid(catalog, r, e) :: e.gas in gases) <==> NamesTellGasesApart(catalog, r)
  {
    if NamesTellGasesApart(catalog, r) {
      forall e | Valid(catalog, r, e) ensures e.gas in gases {
        var e' :| Valid(catalog, r, e') && e'.gas == kept[e.gas.name];
      }
    }
  }

  /** The branch of an element with these fields says which methodology it is for. */
  predicate NamesItsMethodology(e: Element, fields: seq<ReportingField>) {
    match e.custom
    case Some(custom) => "methodology" in custom ==> custom["methodology"] == MethodologyName(e.methodology.name)
    case None => forall f | f in fields :: f.slug != "methodology"
  }

  /** The enum of every option and its branches are aligned: branch k is about methodology k exactly when
      no custom schema and, without one, no reporting field gives the element's "methodology" property
      another meaning; the "Not Applicable" branch always is. */
  lemma BranchesAlignedIff(gas: Gas, fetched: seq<Element>, notApplicable: bool, k: nat)
    requires k < |OptionFor(gas, fetched, notApplicable).methodologyEnum|
    ensures
      var option, elements := OptionFor(gas, fetched, notApplicable), OfGas(fetched, gas.id);
      && option.gasEnum == [gas.formula]
      && |option.methodologies| == |option.methodologyEnum| && |elements| <= |option.methodologyEnum|
      && "methodology" in option.methodologies[k]
      && (option.methodologies[k]["methodology"] == MethodologyName(option.methodologyEnum[k]) <==>
          k == |elements| || NamesItsMethodology(elements[k], FieldsOr(fetched, gas.id, elements[k].methodology.id)))
  {
    var elements := OfGas(fetched, gas.id);
    if k < |elements| && elements[k].custom.None? {
      var base := map["methodology" := MethodologyName(elements[k].methodology.name)];
      FieldPropertiesKeepIff(base, FieldsOr(fetched, gas.id, elements[k].methodology.id), "methodology");
    }
  }

  /** The branch of a methodology without a custom schema asks for exactly its reporting fields; fields
      that share a slug leave the last one's property. */
  lemma {:induction false} FieldPropertiesExact(base: Properties, fields: seq<ReportingField>, i: nat)
    requires i < |fields| && forall j | i < j < |fields| :: fields[j].slug != fields[i].slug
    ensures FieldProperties(base, fields).Keys == base.Keys + set f | f in fields :: f.slug
    ensures FieldProperties(base, fields)[fields[i].slug] ==
            FieldProperty(fields[i].fieldType,
                          if fields[i].title == "" then fields[i].name else fields[i].title,
                          fields[i].units)
  {
    var last := |fields| - 1;
    FieldKeys(base, fields);
    if i < last {
      FieldPropertiesExact(base, fields[..last], i);
      FieldKeys(base, fields[..last]);
      assert fields[..last][i] in fields[..last];
    }
  }

  lemma {:induction false} FieldKeys(base: Properties, fields: seq<ReportingField>)
    ensures FieldProperties(base, fields).Keys == base.Keys + set f | f in fields :: f.slug
  {
    if fields != [] {
      FieldKeys(base, fields[..|fields| - 1]);
      assert fields == fields[..|fields| - 1] + [fields[|fields| - 1]];
    }
  }

  lemma {:induction false} FieldPropertiesKeepIff(base: Properties, fields: seq<ReportingField>, key: string)
    requires key in base && !base[key].FieldProperty?
    ensures key in FieldProperties(base, fields)
    ensures FieldProperties(base, fields)[key] == base[key] <==> forall f | f in fields :: f.slug != key
  {
    if fields != [] {
      FieldPropertiesKeepIff(base, fields[..|fields| - 1], key);
      assert fields == fields[..|fields| - 1] + [fields[|fields| - 1]];
    }
  }

  /* ---------- the fields of a branch are those of its element ---------- */

  /** No two configuration elements of one request share gas type and methodology; a trigger on their table
      sees to that. */
  predicate OneElementEach(fetched: seq<Element>) {
    forall e, e' | e in fetched && e' in fetched && e.gas.id == e'.gas.id && e.methodology.id == e'.methodology.id ::
      e == e'
  }

  lemma {:induction false} OwnFieldsFound(fetched: seq<Element>, e: Element)
    requires OneElementEach(fetched) && e in fetched
    ensures FieldsUnder(fetched, e.gas.id, e.methodology.id) == Some(e.fields)
  {
    var last, rest := fetched[|fetched| - 1], fetched[..|fetched| - 1];
    assert fetched == rest + [last];
    if !(last.gas.id == e.gas.id && last.methodology.id == e.methodology.id) {
      OwnFieldsFound(rest, e);
    }
  }

  /** A branch asks for exactly what its element says: the properties of the custom schema if there is one
      and none of the reporting fields, else exactly the reporting fields, each with its type, its title
      or else its name, and its units. */
  predicate AsksFor(e: Element, branch: Properties) {
    match e.custom
    case Some(custom) =>
      && branch.Keys == custom.Keys + {"methodology"}
      && forall key | key in custom :: branch[key] == custom[key]
    case None =>
      && branch.Keys == {"methodology"} + (set f | f in e.fields :: f.slug)
      && forall i | 0 <= i < |e.fields| && (forall j | i < j < |e.fields| :: e.fields[j].slug != e.fields[i].slug) ::
           var f := e.fields[i];
           branch[f.slug] == FieldProperty(f.fieldType, if f.title == "" then f.name else f.title, f.units)
  }

  /** Branch and enum entry k of a gas type are those of its k-th element. */
  lemma BranchAsksForItsElement(gas: Gas, fetched: seq<Element>, notApplicable: bool, k: nat)
    requires OneElementEach(fetched) && k < |OfGas(fetched, gas.id)|
    ensures
      var option, e := OptionFor(gas, fetched, notApplicable), OfGas(fetched, gas.id)[k];
      && e in fetched && e.gas.id == gas.id
      && k < |option.methodologyEnum| && k < |option.methodologies|
      && option.methodologyEnum[k] == e.methodology.name && AsksFor(e, option.methodologies[k])
  {
    var e := OfGas(fetched, gas.id)[k];
    OfGasIs(fetched, gas.id, e);
    OwnFieldsFound(fetched, e);
    if e.custom.None? {
      var base := map["methodology" := MethodologyName(e.methodology.name)];
      FieldKeys(base, e.fields);
      forall i | 0 <= i < |e.fields| && (forall j | i < j < |e.fields| :: e.fields[j].slug != e.fields[i].slug)
        ensures
          var f := e.fields[i];
          FieldProperties(base, e.fields)[f.slug] ==
          FieldProperty(f.fieldType, if f.title == "" then f.name else f.title, f.units)
      {
        FieldPropertiesExact(base, e.fields, i);
      }
    }
  }

  /** The elements of a gas type come in the order in which they were fetched. */
  lemma {:induction false} OfGasInOrder(fetched: seq<Element>, gas: nat, i: nat, j: nat)
    requires i < j < |OfGas(fetched, gas)|
    ensures exists a, b | 0 <= a < b < |fetched| ::
      fetched[a] == OfGas(fetched, gas)[i] && fetched[b] == OfGas(fetched, gas)[j]
  {
    var last, rest := |fetched| - 1, fetched[..|fetched| - 1];
    if j < |OfGas(rest, gas)| {
      OfGasInOrder(rest, gas, i, j);
      var a, b :| 0 <= a < b < |rest| && rest[a] == OfGas(rest, gas)[i] && rest[b] == OfGas(rest, gas)[j];
      assert fetched[a] == rest[a] && fetched[b] == rest[b];
    } else {
      OfGasIs(rest, gas, OfGas(rest, gas)[i]);
      var a :| 0 <= a < |rest| && rest[a] == OfGas(rest, gas)[i];
      assert fetched[a] == rest[a] && fetched[last] == OfGas(fetched, gas)[j];
    }
  }

  lemma {:induction false} OfGasDistinct(fetched: seq<Element>, gas: nat)
    requires forall i, j | 0 <= i < j < |fetched| :: fetched[i] != fetched[j]
    ensures forall i, j | 0 <= i < j < |OfGas(fetched, gas)| :: OfGas(fetched, gas)[i] != OfGas(fetched, gas)[j]
  {
    if fetched != [] {
      var last, rest := fetched[|fetched| - 1], fetched[..|fetched| - 1];
      OfGasDistinct(rest, gas);
      OfGasIs(rest, gas, last);
    }
  }

  /* ---------- the cached schema ---------- */

  /** The schema row of a request and what the queries return for it; fixed between releases. */
  datatype Source = Source(base: string, hasUnit: bool, hasFuel: bool, fuels: seq<string>, gases: seq<Gas>,
                           fetched: seq<Element>)

  type Data = map<Request, Source>

  /** The finished schema: where the emissions block goes depends on units and fuels, and the fuel enum
      is filled in when there are fuels. */
  datatype Schema = Schema(base: string, underUnits: bool, underFuels: bool, fuelEnum: Option<seq<string>>,
                           gasEnum: seq<string>, oneOf: seq<GasOption>)

  datatype Call = Call(request: Request, notApplicable: bool)

  predicate Buildable(s: Source) {
    forall gas | gas in s.gases :: OfGas(s.fetched, gas.id) != []
  }

  function SchemaOf(s: Source, notApplicable: bool): Schema {
    Schema(s.base, s.hasUnit, s.hasFuel, if s.hasFuel then Some(s.fuels) else None,
           seq(|s.gases|, i requires 0 <= i < |s.gases| => s.gases[i].formula),
           seq(|s.gases|, i requires 0 <= i < |s.gases| => OptionFor(s.gases[i], s.fetched, notApplicable)))
  }

  /** The schema built afresh; None stands for the exception raised when nothing is found. */
  function Build(data: Data, call: Call): Option<Schema> {
    if call.request !in data || !Buildable(data[call.request]) then None
    else Some(SchemaOf(data[call.request], call.notApplicable))
  }

  /** If each element was fetched once, each has one branch, and the branches come in the order in which the
      elements were fetched. */
  lemma BranchesInOrder(gas: Gas, fetched: seq<Element>, i: nat, j: nat)
    requires forall a, b | 0 <= a < b < |fetched| :: fetched[a] != fetched[b]
    requires i < j < |OfGas(fetched, gas.id)|
    ensures OfGas(fetched, gas.id)[i] != OfGas(fetched, gas.id)[j]
    ensures forall a, b | 0 <= a < |fetched| && 0 <= b < |fetched|
                          && fetched[a] == OfGas(fetched, gas.id)[i] && fetched[b] == OfGas(fetched, gas.id)[j] :: a < b
  {
    OfGasDistinct(fetched, gas.id);
    OfGasInOrder(fetched, gas.id, i, j);
  }

  /** A schema is built exactly when there is one for the request and an element for each of its gas types.
      It carries the fuels exactly if there are any, one option per gas type in order, and for every
      element of a gas type a branch that asks for exactly what the element says. */
  lemma BuildOutcome(data: Data, call: Call)
    ensures Build(data, call).Some? <==>
            call.request in data
            && forall gas | gas in data[call.request].gases ::
                 exists e | e in data[call.request].fetched :: e.gas.id == gas.id
    ensures Build(data, call).Some? ==>
      var s, schema := data[call.request], Build(data, call).value;
      && schema.base == s.base && schema.underUnits == s.hasUnit && schema.underFuels == s.hasFuel
      && schema.fuelEnum == (if s.hasFuel then Some(s.fuels) else None)
      && |schema.gasEnum| == |schema.oneOf| == |s.gases|
      && forall i | 0 <= i < |s.gases| ::
         schema.gasEnum[i] == s.gases[i].formula && schema.oneOf[i].gasEnum == [s.gases[i].formula]
  {
    if call.request in data {
      forall gas | gas in data[call.request].gases
        ensures OfGas(data[call.request].fetched, gas.id) != [] <==>
                exists e | e in data[call.request].fetched :: e.gas.id == gas.id
      {
        OfGasIffAny(data[call.request].fetched, gas.id);
      }
    }
  }

  lemma OfGasIffAny(fetched: seq<Element>, gas: nat)
    ensures OfGas(fetched, gas) != [] <==> exists e | e in fetched :: e.gas.id == gas
  {
    if OfGas(fetched, gas) != [] {
      OfGasIs(fetched, gas, OfGas(fetched, gas)[0]);
    }
    if e :| e in fetched && e.gas.id == gas {
      OfGasIs(fetched, gas, e);
    }
  }

  lemma BuildAsksForElements(data: Data, call: Call, i: nat, e: Element)
    requires Build(data, call).Some? && OneElementEach(data[call.request].fetched)
    requires i < |data[call.request].gases| && e in data[call.request].fetched
    requires e.gas.id == data[call.request].gases[i].id
    ensures
      var option := Build(data, call).value.oneOf[i];
      exists k | 0 <= k < |option.methodologyEnum| && k < |option.methodologies| ::
        option.methodologyEnum[k] == e.methodology.name && AsksFor(e, option.methodologies[k])
  {
    var s := data[call.request];
    OfGasIs(s.fetched, e.gas.id, e);
    var k :| 0 <= k < |OfGas(s.fetched, e.gas.id)| && OfGas(s.fetched, e.gas.id)[k] == e;
    BranchAsksForItsElement(s.gases[i], s.fetched, call.notApplicable, k);
    assert Build(data, call).value.oneOf[i] == OptionFor(s.gases[i], s.fetched, call.notApplicable);
  }

  /** The cache key leaves the flag out. */
  function CacheKey(r: Request): string {
    Show(r.config) + "-" + Show(r.activity) + "-" + Show(r.sourceType)
  }

  lemma CacheKeyInjective(r: Request, r': Request)
    requires CacheKey(r) == CacheKey(r')
    ensures r == r'
  {
    var rest, rest' := Show(r.activity) + "-" + Show(r.sourceType), Show(r'.activity) + "-" + Show(r'.sourceType);
    assert CacheKey(r) == Show(r.config) + "-" + rest && CacheKey(r') == Show(r'.config) + "-" + rest';
    SplitUnique(Show(r.config), Show(r'.config), rest, rest');
    SplitUnique(Show(r.activity), Show(r'.activity), Show(r.sourceType), Show(r'.sourceType));
    ShowInjective(r.config, r'.config);
    ShowInjective(r.activity, r'.activity);
    ShowInjective(r.sourceType, r'.sourceType);
  }

  class FormBuilder {
    const data: Data
    var cache: map<string, Schema>

    constructor (data: Data)
      ensures this.data == data && cache == map[]
    {
      this.data, cache := data, map[];
    }

    method BuildSourceTypeSchema(call: Call) returns (schema: Option<Schema>)
      modifies this
      ensures schema == Serve(data, old(cache), call)
      ensures cache == CacheNext(data, old(cache), call)
    {
      var key := CacheKey(call.request);
      if key in cache {
        return Some(cache[key]);
      }
      if call.request !in data {
        return None;
      }
      var source := data[call.request];
      var builder := new SchemaBuilder();
      var found := builder.HandleGasTypes(source.gases, source.fetched, call.notApplicable);
      if !found {
        return None;
      }
      var built := Schema(source.base, source.hasUnit, source.hasFuel,
                          if source.hasFuel then Some(source.fuels) else None, builder.gasEnum, builder.oneOf);
      assert built.gasEnum == SchemaOf(source, call.notApplicable).gasEnum;
      assert built.oneOf == SchemaOf(source, call.notApplicable).oneOf;
      cache := cache[key := built];
      return Some(built);
    }
  }

  function Serve(data: Data, cache: map<string, Schema>, call: Call): Option<Schema> {
    if CacheKey(call.request) in cache then Some(cache[CacheKey(call.request)]) else Build(data, call)
  }

  function CacheNext(data: Data, cache: map<string, Schema>, call: Call): map<string, Schema> {
    match Serve(data, cache, call)
    case None => cache
    case Some(schema) => cache[CacheKey(call.request) := schema]
  }

  function CacheAfter(data: Data, calls: seq<Call>): map<string, Schema> {
    if calls == [] then map[]
    else CacheNext(data, CacheAfter(data, calls[..|calls| - 1]), calls[|calls| - 1])
  }

  /** The first call for a request. */
  function FirstCall(calls: seq<Call>, r: Request): Option<Call> {
    if calls == [] then None
    else
      match FirstCall(calls[..|calls| - 1], r)
      case Some(first) => Some(first)
      case None => if calls[|calls| - 1].request == r then Some(calls[|calls| - 1]) else None
  }

  lemma {:induction false} FirstCallIs(calls: seq<Call>, r: Request)
    ensures FirstCall(calls, r).Some? <==> exists c | c in calls :: c.request == r
    ensures FirstCall(calls, r).Some? ==> FirstCall(calls, r).value in calls && FirstCall(calls, r).value.request == r
  {
    if calls != [] {
      FirstCallIs(calls[..|calls| - 1], r);
      assert calls == calls[..|calls| - 1] + [calls[|calls| - 1]];
    }
  }

  lemma FlagDoesNotDecideBuild(data: Data, call: Call, call': Call)
    requires call.request == call'.request
    ensures Build(data, call).None? <==> Build(data, call').None?
  {
  }

  /** The cache holds, for every request that could be built, what its first call built. */
  lemma {:induction false} CacheHoldsFirst(data: Data, calls: seq<Call>, r: Request)
    ensures
      var cache := CacheAfter(data, calls);
      match FirstCall(calls, r)
      case None => CacheKey(r) !in cache
      case Some(first) =>
        if Build(data, first).None? then CacheKey(r) !in cache
        else CacheKey(r) in cache && Some(cache[CacheKey(r)]) == Build(data, first)
  {
    if calls != [] {
      var rest, last := calls[..|calls| - 1], calls[|calls| - 1];
      CacheHoldsFirst(data, rest, r);
      FirstCallIs(rest, r);
      if CacheKey(last.request) == CacheKey(r) {
        CacheKeyInjective(last.request, r);
      }
    }
  }

  /** What the flag changes: the schema differs as soon as there is a gas type to choose. */
  lemma FlagShows(s: Source)
    ensures SchemaOf(s, true) == SchemaOf(s, false) <==> s.gases == []
  {
    if s.gases != [] {
      var with, without := OptionFor(s.gases[0], s.fetched, true), OptionFor(s.gases[0], s.fetched, false);
      assert |with.methodologyEnum| == |without.methodologyEnum| + 1;
      assert SchemaOf(s, true).oneOf[0] == with && SchemaOf(s, false).oneOf[0] == without;
    } else {
      assert SchemaOf(s, true).oneOf == [] && SchemaOf(s, false).oneOf == [];
    }
  }

  /** Call i is answered as it would be without the cache. */
  ghost predicate AnsweredAfresh(data: Data, calls: seq<Call>, i: nat)
    requires i < |calls|
  {
    Serve(data, CacheAfter(data, calls[..i]), calls[i]) == Build(data, calls[i])
  }

  lemma AnsweredAfreshIff(data: Data, calls: seq<Call>, i: nat)
    requires i < |calls|
    ensures AnsweredAfresh(data, calls, i) <==>
      match FirstCall(calls[..i], calls[i].request)
      case None => true
      case Some(first) =>
        first.notApplicable == calls[i].notApplicable || Build(data, calls[i]).None?
          || data[calls[i].request].gases == []
  {
    var r := calls[i].request;
    CacheHoldsFirst(data, calls[..i], r);
    FirstCallIs(calls[..i], r);
    if FirstCall(calls[..i], r).Some? && Build(data, calls[i]).Some? {
      FlagDoesNotDecideBuild(data, FirstCall(calls[..i], r).value, calls[i]);
      FlagShows(data[r]);
    }
  }

  /** The cache is transparent over a whole run exactly when no two calls ask for the same schema, one
      that can be built and offers a gas type, with different flags. */
  lemma CacheTransparentIff(data: Data, calls: seq<Call>)
    ensures (forall i | 0 <= i < |calls| :: AnsweredAfresh(data, calls, i)) <==>
            forall i, j | 0 <= i < j < |calls| && calls[i].request == calls[j].request
                          && Build(data, calls[j]).Some? && data[calls[j].request].gases != [] ::
              calls[i].notApplicable == calls[j].notApplicable
  {
    if forall i | 0 <= i < |calls| :: AnsweredAfresh(data, calls, i) {
      forall i, j | 0 <= i < j < |calls| && calls[i].request == calls[j].request
                    && Build(data, calls[j]).Some? && data[calls[j].request].gases != []
        ensures calls[i].notApplicable == calls[j].notApplicable
      {
        AnsweredAfreshIff(data, calls, i);
        AnsweredAfreshIff(data, calls, j);
        FirstCallPrefix(calls, calls[j].request, i, j);
        FirstCallIs(calls[..j], calls[j].request);
        assert calls[i] in calls[..j];
        FlagDoesNotDecideBuild(data, calls[i], calls[j]);
      }
    }
    if forall i, j | 0 <= i < j < |calls| && calls[i].request == calls[j].request
                     && Build(data, calls[j]).Some? && data[calls[j].request].gases != [] ::
        calls[i].notApplicable == calls[j].notApplicable
    {
      forall j | 0 <= j < |calls| ensures AnsweredAfresh(data, calls, j) {
        AnsweredAfreshIff(data, calls, j);
        FirstCallIs(calls[..j], calls[j].request);
        if FirstCall(calls[..j], calls[j].request).Some? {
          var i :| 0 <= i < j && calls[..j][i] == FirstCall(calls[..j], calls[j].request).value;
          assert calls[i].request == calls[j].request;
        }
      }
    }
  }

  /** The first call seen before i, if any, or else call i itself, is the first one seen before j. */
  lemma {:induction false} FirstCallPrefix(calls: seq<Call>, r: Request, i: nat, j: nat)
    requires i < j <= |calls| && calls[i].request == r
    ensures FirstCall(calls[..j], r) ==
            match FirstCall(calls[..i], r) case None => Some(calls[i]) case Some(first) => Some(first)
    decreases j
  {
    assert calls[..j][..j - 1] == calls[..j - 1];
    if j > i + 1 {
      FirstCallPrefix(calls, r, i, j - 1);
    }
  }

  /** The flag a form is built with depends on the type of the facility. */
  predicate NotApplicableFor(facilityType: string) {
    facilityType == "Small Aggregate" || facilityType == "Medium Facility"
  }

  function FormCall(r: Request, facilityType: string): Call {
    Call(r, NotApplicableFor(facilityType))
  }

  /** Two facilities report the same activity. The form of the first offers "Not Applicable", and so does
      the form of the second, which should not. */
  lemma CacheShowsOtherFacility()
    ensures
      var r := Request(1, 2, 3);
      var gas := Gas(1, "Carbon dioxide", "CO2");
      var element := Element(2, 3, gas, Methodology(1, "CEMS"), None, [], 1, 1);
      var data := map[r := Source("", false, false, [], [gas], [element])];
      var calls := [FormCall(r, "Small Aggregate"), FormCall(r, "Large Facility")];
      && NotApplicableFor("Medium Facility")
      && AnsweredAfresh(data, calls, 0) && !AnsweredAfresh(data, calls, 1)
      && Serve(data, CacheAfter(data, calls[..1]), calls[1]) == Build(data, calls[0])
  {
    var r := Request(1, 2, 3);
    var gas := Gas(1, "Carbon dioxide", "CO2");
    var element := Element(2, 3, gas, Methodology(1, "CEMS"), None, [], 1, 1);
    var data := map[r := Source("", false, false, [], [gas], [element])];
    var calls := [FormCall(r, "Small Aggregate"), FormCall(r, "Large Facility")];
    assert OfGas([element], 1) != [] by {
      OfGasIs([element], 1, element);
    }
    assert Buildable(data[r]);
    AnsweredAfreshIff(data, calls, 0);
    AnsweredAfreshIff(data, calls, 1);
    assert calls[..1] == [calls[0]] && [calls[0]][..0] == [];
    assert FirstCall(calls[..1], r) == Some(calls[0]);
    CacheHoldsFirst(data, calls[..1], r);
  }

  /* ---------- a cache that drops entries ---------- */

  predicate PartOf(a: map<string, Schema>, b: map<string, Schema>) {
    forall key | key in a :: key in b && a[key] == b[key]
  }

  /** The cache before and after each call, when any entries may be dropped at any time. */
  predicate Culled(data: Data, calls: seq<Call>, caches: seq<map<string, Schema>>) {
    && |caches| == |calls| + 1 && caches[0] == map[]
    && forall i, j | 0 <= i && j == i + 1 < |caches| :: PartOf(caches[j], CacheNext(data, caches[i], calls[i]))
  }

  /** Whatever a cache still holds, an earlier call for the same request built. */
  lemma {:induction false} CulledHoldsEarlier(data: Data, calls: seq<Call>, caches: seq<map<string, Schema>>, i: nat,
                                              r: Request)
    requires Culled(data, calls, caches) && i < |caches| && CacheKey(r) in caches[i]
    ensures exists j | 0 <= j < i :: calls[j].request == r && Build(data, calls[j]) == Some(caches[i][CacheKey(r)])
  {
    if i > 0 {
      var k := i - 1;
      assert PartOf(caches[i], CacheNext(data, caches[k], calls[k]));
      if CacheKey(r) in caches[k] {
        CulledHoldsEarlier(data, calls, caches, k, r);
      } else {
        assert CacheKey(calls[k].request) == CacheKey(r);
        CacheKeyInjective(calls[k].request, r);
        assert Build(data, calls[k]) == Some(caches[i][CacheKey(r)]);
      }
    }
  }

  /** Dropping entries only ever brings back fresh answers: the condition that makes the full cache
      transparent still does. */
  lemma CulledTransparent(data: Data, calls: seq<Call>, caches: seq<map<string, Schema>>)
    requires Culled(data, calls, caches)
    requires forall i, j | 0 <= i < j < |calls| && calls[i].request == calls[j].request
                           && Build(data, calls[j]).Some? && data[calls[j].request].gases != [] ::
      calls[i].notApplicable == calls[j].notApplicable
    ensures forall i | 0 <= i < |calls| :: Serve(data, caches[i], calls[i]) == Build(data, calls[i])
  {
    forall i | 0 <= i < |calls| ensures Serve(data, caches[i], calls[i]) == Build(data, calls[i]) {
      var r := calls[i].request;
      if CacheKey(r) in caches[i] {
        CulledHoldsEarlier(data, calls, caches, i, r);
        var j :| 0 <= j < i && calls[j].request == r && Build(data, calls[j]) == Some(caches[i][CacheKey(r)]);
        FlagDoesNotDecideBuild(data, calls[j], calls[i]);
        FlagShows(data[r]);
      }
    }
  }
}
