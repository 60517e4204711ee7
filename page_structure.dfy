/** The Vinello record shape: a `NamedTuple` of 24 named fields in a fixed
    declared order, none with a default. Records are immutable values. The
    annotated types (int for region, vintage and maturation_duration, float for
    acidity and sugar) are never enforced, so every field is a `Value`. */
module PageStructure {
  import opened Values

  datatype VinelloPage = VinelloPage(
    wineName: Value,
    description: Value,
    verification: Value,
    wineType: Value,
    country: Value,
    region: Value,
    acidity: Value,
    sugar: Value,
    sweetness: Value,
    subRegion: Value,
    perfectFor: Value,
    ageing: Value,
    vintage: Value,
    soil: Value,
    aromas: Value,
    texture: Value,
    foodPairing: Value,
    alcohol: Value,
    allergens: Value,
    colour: Value,
    variety: Value,
    harvest: Value,
    maturationDuration: Value,
    style: Value
  )

  /** The field names, in declared order. */
  const FieldNames: seq<string> := [
    "wine_name",
    "description",
    "verification",
    "type",
    "country",
    "region",
    "acidity",
    "sugar",
    "sweetness",
    "sub_region",
    "perfect_for",
    "ageing",
    "vintage",
    "soil",
    "aromas",
    "texture",
    "food_pairing",
    "alcohol",
    "allergens",
    "colour",
    "variety",
    "harvest",
    "maturation_duration",
    "style"
  ]

  /** The record as a tuple: its values in declared order. */
  function AsTuple(p: VinelloPage): (vs: seq<Value>)
    ensures |vs| == |FieldNames|
    ensures FromTuple(vs) == p
  {
    [p.wineName, p.description, p.verification, p.wineType, p.country, p.region, p.acidity, p.sugar, p.sweetness, p.subRegion, p.perfectFor, p.ageing, p.vintage, p.soil, p.aromas, p.texture, p.foodPairing, p.alcohol, p.allergens, p.colour, p.variety, p.harvest, p.maturationDuration, p.style]
  }

  /** Building a record takes exactly one value per field, in declared order. */
  function FromTuple(vs: seq<Value>): (p: VinelloPage)
    requires |vs| == |FieldNames|
  {
    VinelloPage(vs[0], vs[1], vs[2], vs[3], vs[4], vs[5], vs[6], vs[7], vs[8], vs[9], vs[10], vs[11], vs[12], vs[13], vs[14], vs[15], vs[16], vs[17], vs[18], vs[19], vs[20], vs[21], vs[22], vs[23])
  }

  /** `getattr(p, name)` on a field name: the field called `name`. Any
      other name gives `None`; the named tuple's other attributes (`count`,
      `index`, `_fields`, `_asdict`, ...) are not modelled. */
  function Attr(p: VinelloPage, name: string): Option<Value>
  {
    if name == "wine_name" then Some(p.wineName)
    else if name == "description" then Some(p.description)
    else if name == "verification" then Some(p.verification)
    else if name == "type" then Some(p.wineType)
    else if name == "country" then Some(p.country)
    else if name == "region" then Some(p.region)
    else if name == "acidity" then Some(p.acidity)
    else if name == "sugar" then Some(p.sugar)
    else if name == "sweetness" then Some(p.sweetness)
    else if name == "sub_region" then Some(p.subRegion)
    else if name == "perfect_for" then Some(p.perfectFor)
    else if name == "ageing" then Some(p.ageing)
    else if name == "vintage" then Some(p.vintage)
    else if name == "soil" then Some(p.soil)
    else if name == "aromas" then Some(p.aromas)
    else if name == "texture" then Some(p.texture)
    else if name == "food_pairing" then Some(p.foodPairing)
    else if name == "alcohol" then Some(p.alcohol)
    else if name == "allergens" then Some(p.allergens)
    else if name == "colour" then Some(p.colour)
    else if name == "variety" then Some(p.variety)
    else if name == "harvest" then Some(p.harvest)
    else if name == "maturation_duration" then Some(p.maturationDuration)
    else if name == "style" then Some(p.style)
    else None
  }

  /** `getattr` by the i-th declared name yields the i-th tuple value, and
      only declared names are attributes. */
  lemma AttrByPosition(p: VinelloPage, i: nat)
    requires i < |FieldNames|
    ensures Attr(p, FieldNames[i]) == Some(AsTuple(p)[i])
  {
    var vs := AsTuple(p);
    if i == 0 { assert Attr(p, FieldNames[0]) == Some(vs[0]); }
    else if i == 1 { assert Attr(p, FieldNames[1]) == Some(vs[1]); }
    else if i == 2 { assert Attr(p, FieldNames[2]) == Some(vs[2]); }
    else if i == 3 { assert Attr(p, FieldNames[3]) == Some(vs[3]); }
    else if i == 4 { assert Attr(p, FieldNames[4]) == Some(vs[4]); }
    else if i == 5 { assert Attr(p, FieldNames[5]) == Some(vs[5]); }
    else if i == 6 { assert Attr(p, FieldNames[6]) == Some(vs[6]); }
    else if i == 7 { assert Attr(p, FieldNames[7]) == Some(vs[7]); }
    else if i == 8 { assert Attr(p, FieldNames[8]) == Some(vs[8]); }
    else if i == 9 { assert Attr(p, FieldNames[9]) == Some(vs[9]); }
    else if i == 10 { assert Attr(p, FieldNames[10]) == Some(vs[10]); }
    else if i == 11 { assert Attr(p, FieldNames[11]) == Some(vs[11]); }
    else if i == 12 { assert Attr(p, FieldNames[12]) == Some(vs[12]); }
    else if i == 13 { assert Attr(p, FieldNames[13]) == Some(vs[13]); }
    else if i == 14 { assert Attr(p, FieldNames[14]) == Some(vs[14]); }
    else if i == 15 { assert Attr(p, FieldNames[15]) == Some(vs[15]); }
    else if i == 16 { assert Attr(p, FieldNames[16]) == Some(vs[16]); }
    else if i == 17 { assert Attr(p, FieldNames[17]) == Some(vs[17]); }
    else if i == 18 { assert Attr(p, FieldNames[18]) == Some(vs[18]); }
    else if i == 19 { assert Attr(p, FieldNames[19]) == Some(vs[19]); }
    else if i == 20 { assert Attr(p, FieldNames[20]) == Some(vs[20]); }
    else if i == 21 { assert Attr(p, FieldNames[21]) == Some(vs[21]); }
    else if i == 22 { assert Attr(p, FieldNames[22]) == Some(vs[22]); }
    else { assert Attr(p, FieldNames[23]) == Some(vs[23]); }
  }

  lemma AttrOnlyFields(p: VinelloPage, name: string)
    requires Attr(p, name).Some?
    ensures name in FieldNames
  {
  }

  /** The declared names are pairwise distinct: each field is named once. */
  lemma FieldNamesDistinct()
    ensures forall i, j :: 0 <= i < j < |FieldNames| ==> FieldNames[i] != FieldNames[j]
  {
  }
}
