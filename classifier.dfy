/**
 * Schema detection: which of the two fixed feature lists a frame's column
 * labels overlap with (Code-Files/CSV-Filter.py, detect_data_type).
 */
module Classifier {
  import opened Sequences
  import opened Tables

  /** Observational parameters. */
  const Type1Features: seq<string> := [
    "obs_collection", "instrument_name", "filters", "wavelength_region",
    "target_name", "target_classification", "s_ra", "s_dec", "calib_level",
    "t_min", "t_exptime", "distance"
  ]

  /** Astrometric parameters. */
  const Type2Features: seq<string> := [
    "source_id", "ra", "dec", "l", "b", "parallax", "parallax_over_error",
    "pmra", "pmdec", "radial_velocity", "phot_g_mean_mag", "phot_bp_mean_mag",
    "phot_rp_mean_mag", "bp_rp", "teff_val", "radius_val", "lum_val"
  ]

  /** The value of `data_type`; `NoMatch` stands for Python's `None`. */
  datatype Classification = Type1 | Type2 | Both | NoMatch

  /** Specification: some feature of the list is one of the column labels. */
  ghost predicate Overlaps(features: seq<string>, columns: set<string>) {
    exists x :: x in features && x in columns
  }

  /** `any(col in columns for col in features)`. */
  function AnyPresent(features: seq<string>, columns: set<string>): (b: bool)
    ensures b <==> Overlaps(features, columns)
  {
    if features == [] then false
    else if features[0] in columns then true
    else
      assert forall x :: x in features ==> x == features[0] || x in features[1..];
      AnyPresent(features[1..], columns)
  }

  /** The four-way decision of detect_data_type over the set of column labels. */
  function Classify(columns: set<string>): (c: Classification)
    ensures c == Type1 <==> Overlaps(Type1Features, columns) && !Overlaps(Type2Features, columns)
    ensures c == Type2 <==> Overlaps(Type2Features, columns) && !Overlaps(Type1Features, columns)
    ensures c == Both <==> Overlaps(Type1Features, columns) && Overlaps(Type2Features, columns)
    ensures c == NoMatch <==> !Overlaps(Type1Features, columns) && !Overlaps(Type2Features, columns)
  {
    var type1Match := AnyPresent(Type1Features, columns);
    var type2Match := AnyPresent(Type2Features, columns);
    if type1Match && !type2Match then Type1
    else if type2Match && !type1Match then Type2
    else if type1Match && type2Match then Both
    else NoMatch
  }

  /** Some column of the frame is labelled with a feature of the list. */
  ghost predicate HasFeatureColumn(t: Table, features: seq<string>) {
    exists c :: c in t.columns && c.name in features
  }

  lemma OverlapsByColumns(t: Table, features: seq<string>)
    ensures Overlaps(features, NameSet(t.columns)) <==> HasFeatureColumn(t, features)
  {
    if Overlaps(features, NameSet(t.columns)) {
      var x :| x in features && x in NameSet(t.columns);
      var c :| c in t.columns && c.name == x;
    }
  }

  /** Classification of a parsed frame: only its set of labels is consulted. */
  function ClassifyTable(t: Table): Classification {
    Classify(NameSet(t.columns))
  }

  /** The classification of a frame, stated over the labels its columns carry. */
  lemma ClassifyTableByColumns(t: Table)
    ensures ClassifyTable(t) == Type1 <==> HasFeatureColumn(t, Type1Features) && !HasFeatureColumn(t, Type2Features)
    ensures ClassifyTable(t) == Type2 <==> HasFeatureColumn(t, Type2Features) && !HasFeatureColumn(t, Type1Features)
    ensures ClassifyTable(t) == Both <==> HasFeatureColumn(t, Type1Features) && HasFeatureColumn(t, Type2Features)
    ensures ClassifyTable(t) == NoMatch <==> !HasFeatureColumn(t, Type1Features) && !HasFeatureColumn(t, Type2Features)
  {
    OverlapsByColumns(t, Type1Features);
    OverlapsByColumns(t, Type2Features);
  }

  /** The feature list `filter_csv` selects for a resolved type. */
  function Features(d: Classification): seq<string>
    requires d == Type1 || d == Type2
  {
    if d == Type1 then Type1Features else Type2Features
  }

  /** Type 1 selects the observational list and Type 2 the astrometric one, never the other. */
  lemma FeaturesOfType(d: Classification)
    requires d == Type1 || d == Type2
    ensures Features(d) == Type1Features <==> d == Type1
    ensures Features(d) == Type2Features <==> d == Type2
  {
    assert |Type1Features| != |Type2Features|;
  }

  /** The ambiguity resolution of filter_csv: a yes answer picks Type 1, otherwise Type 2. */
  function Resolve(d: Classification, yes: bool): (r: Classification)
    ensures r != Both
    ensures d != Both ==> r == d
    ensures d == Both ==> (r == Type1 <==> yes)
    ensures d == Both ==> (r == Type2 <==> !yes)
  {
    if d == Both then (if yes then Type1 else Type2) else d
  }

  /** Neither feature list repeats a name, and the two lists share none. */
  lemma FeatureListsDistinct()
    ensures NoDuplicates(Type1Features)
    ensures NoDuplicates(Type2Features)
    ensures forall x :: x in Type1Features ==> x !in Type2Features
  {
    Type1NoDuplicates();
    Type2NoDuplicates();
    FeatureListsDisjoint();
  }

  lemma Type1NoDuplicates()
    ensures NoDuplicates(Type1Features)
  {
  }

  lemma Type2NoDuplicates()
    ensures NoDuplicates(Type2Features)
  {
  }

  lemma FeatureListsDisjoint()
    ensures forall x :: x in Type1Features ==> x !in Type2Features
  {
  }

  /** Each list filter_csv can select is duplicate-free. */
  lemma FeaturesNoDuplicates(d: Classification)
    requires d == Type1 || d == Type2
    ensures NoDuplicates(Features(d))
  {
    FeatureListsDistinct();
  }

  /** Frames with the same set of labels, whatever their order, repetitions or cells, classify alike. */
  lemma ClassifyDependsOnlyOnLabelSet(t: Table, u: Table)
    requires NameSet(t.columns) == NameSet(u.columns)
    ensures ClassifyTable(t) == ClassifyTable(u)
  {
  }

  /** Reordering the columns or changing cells never changes the classification. */
  lemma ClassifyIgnoresOrderAndCells(t: Table, u: Table)
    requires multiset(Names(t.columns)) == multiset(Names(u.columns))
    ensures ClassifyTable(t) == ClassifyTable(u)
  {
    forall n ensures n in NameSet(t.columns) <==> n in NameSet(u.columns) {
      assert n in Names(t.columns) <==> n in multiset(Names(t.columns));
      assert n in Names(u.columns) <==> n in multiset(Names(u.columns));
    }
    assert NameSet(t.columns) == NameSet(u.columns);
  }
}
