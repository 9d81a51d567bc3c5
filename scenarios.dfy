/** A concrete frame run through the classifier. */
module Scenarios {
  import opened Wrappers
  import opened Tables
  import opened Classifier

  function Full(name: string): Column {
    Column(name, [Some("1"), Some("2")])
  }

  /** `obs_collection` is a Type 1 feature and `source_id`, `ra`, `dec` are Type 2 features. */
  lemma MixedColumnsAreAmbiguous()
    ensures ClassifyTable(Table([Full("source_id"), Full("ra"), Full("dec"), Full("obs_collection")], 2)) == Both
  {
    var t := Table([Full("source_id"), Full("ra"), Full("dec"), Full("obs_collection")], 2);
    assert "obs_collection" in Type1Features && "obs_collection" in NameSet(t.columns);
    assert "ra" in Type2Features && "ra" in NameSet(t.columns);
  }
}
