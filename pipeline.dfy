/**
 * The module-level state of Code-Files/CSV-Filter.py (`cleaned_df`,
 * `filtered_df`, `file_path`, `data_type`) and the four button handlers that
 * update it. File dialogs, the yes/no question and the CSV reader are inputs:
 * a chosen path is an `Option<string>`, the reader's result an
 * `Option<Table>` (`None` when it raised), the answer a `bool`.
 */
module Pipeline {
  import opened Wrappers
  import opened Sequences
  import opened Tables
  import opened Classifier
  import opened Projector

  /** Python truthiness of a dialog's answer: a cancelled dialog gives an empty path. */
  predicate IsGiven(p: Option<string>): (b: bool)
    ensures b <==> p.Some? && |p.value| != 0
  {
    match p
    case None => false
    case Some(path) => path != ""
  }

  datatype UploadStatus = NoFileSelected | DetectFailed | Detected
  datatype ClearStatus = NoFileUploaded | ReadFailed | Cleared
  datatype FilterStatus = NoCleanedData | UnknownType | Filtered
  datatype SaveStatus = NoFilteredData | NoFileName | Saved

  /** What `to_csv` is asked to write. */
  datatype Export = Export(path: string, table: Table)

  /**
   * For a frame classified as `ClassifyTable(t)`, every type that filter_csv
   * can go on with selects at least one column of `t`.
   */
  lemma SelectionNonEmpty(t: Table, d: Classification)
    requires d == Type1 || d == Type2
    requires ClassifyTable(t) == d || ClassifyTable(t) == Both
    ensures SelectedNames(Features(d), NameSet(t.columns)) != []
  {
    var x :| x in Features(d) && x in NameSet(t.columns);
    assert x in SelectedNames(Features(d), NameSet(t.columns));
  }

  /** `d` is what detection gave, or the answer's choice when detection gave Both. */
  ghost predicate ResolvedFrom(d: Classification, detected: Classification) {
    d == detected || (detected == Both && (d == Type1 || d == Type2))
  }

  /** Resolving an ambiguous type keeps it a resolution of the same detection. */
  lemma ResolveKeepsDetection(d: Classification, detected: Classification, yes: bool)
    requires ResolvedFrom(d, detected)
    ensures ResolvedFrom(Resolve(d, yes), detected)
  {
  }

  class Session {
    var cleaned: Option<Table>
    var filtered: Option<Table>
    var filePath: Option<string>
    var dataType: Classification
    /** The frame the current `dataType` was detected from, if any. */
    ghost var classifiedFrom: Option<Table>
    /** What detection gave for that frame, before any resolution. */
    ghost var detected: Classification

    ghost predicate Valid()
      reads this
    {
      (cleaned.Some? ==> WellFormed(cleaned.value)) &&
      (filtered.Some? ==> WellFormed(filtered.value)) &&
      DetectionRecorded() &&
      ResolvedFrom(dataType, detected)
    }

    /** `detected` is what detection gave for `classifiedFrom` (nothing before any detection). */
    ghost predicate DetectionRecorded()
      reads this`classifiedFrom, this`detected
    {
      match classifiedFrom
      case None => detected == NoMatch
      case Some(t) => detected == ClassifyTable(t)
    }

    /** The initial values of the four globals. */
    constructor ()
      ensures Valid()
      ensures cleaned == None && filtered == None && filePath == None && dataType == NoMatch
      ensures classifiedFrom == None && detected == NoMatch
    {
      cleaned, filtered, filePath, dataType := None, None, None, NoMatch;
      classifiedFrom, detected := None, NoMatch;
    }

    /**
     * upload_file followed by detect_data_type: the path is stored whatever it
     * is; a given path whose frame was read replaces the classification, and a
     * failed read leaves the old one.
     */
    method UploadFile(chosen: Option<string>, parsed: Option<Table>) returns (status: UploadStatus)
      requires Valid()
      modifies this`filePath, this`dataType, this`classifiedFrom, this`detected
      ensures Valid()
      ensures filePath == chosen
      ensures cleaned == old(cleaned) && filtered == old(filtered)
      ensures status == NoFileSelected <==> !IsGiven(chosen)
      ensures status == DetectFailed <==> IsGiven(chosen) && parsed.None?
      ensures dataType == if status == Detected then ClassifyTable(parsed.value) else old(dataType)
      ensures classifiedFrom == if status == Detected then parsed else old(classifiedFrom)
      ensures detected == dataType || status != Detected
    {
      filePath := chosen;
      if !IsGiven(chosen) {
        status := NoFileSelected;
      } else if parsed.None? {
        status := DetectFailed;
      } else {
        dataType := ClassifyTable(parsed.value);
        classifiedFrom, detected := parsed, dataType;
        status := Detected;
      }
    }

    /** clear_csv: without an uploaded path nothing changes; a failed read keeps the old frame. */
    method ClearCsv(parsed: Option<Table>) returns (status: ClearStatus)
      requires Valid()
      requires parsed.Some? ==> WellFormed(parsed.value)
      modifies this`cleaned
      ensures Valid()
      ensures status == NoFileUploaded <==> !IsGiven(filePath)
      ensures status == ReadFailed <==> IsGiven(filePath) && parsed.None?
      ensures cleaned == if status == Cleared then parsed else old(cleaned)
      ensures filtered == old(filtered) && filePath == old(filePath) && dataType == old(dataType)
      ensures classifiedFrom == old(classifiedFrom)
    {
      if !IsGiven(filePath) {
        return NoFileUploaded;
      }
      if parsed.None? {
        return ReadFailed;
      }
      cleaned := parsed;
      status := Cleared;
    }

    /**
     * filter_csv: refuses without a cleaned frame; otherwise first resolves an
     * ambiguous classification with the answer, then refuses an unknown type,
     * and else projects the cleaned frame onto the resolved type's features.
     */
    method FilterCsv(yes: bool) returns (status: FilterStatus)
      requires Valid()
      modifies this`dataType, this`filtered
      ensures Valid()
      ensures cleaned == old(cleaned) && filePath == old(filePath) && classifiedFrom == old(classifiedFrom)
      ensures status == NoCleanedData <==> old(cleaned).None?
      ensures status == NoCleanedData ==> dataType == old(dataType)
      ensures status != NoCleanedData ==> dataType == Resolve(old(dataType), yes) && dataType != Both
      ensures status == UnknownType <==> old(cleaned).Some? && old(dataType) == NoMatch
      ensures status == Filtered ==>
        (dataType == Type1 || dataType == Type2) &&
        filtered == Some(Project(Features(dataType), cleaned.value))
      ensures status != Filtered ==> filtered == old(filtered)
      ensures status == Filtered && classifiedFrom == cleaned ==>
        SelectedNames(Features(dataType), NameSet(cleaned.value.columns)) != []
    {
      if cleaned.None? {
        return NoCleanedData;
      }
      ResolveKeepsDetection(dataType, detected, yes);
      if dataType == Both {
        dataType := if yes then Type1 else Type2;
      }
      if dataType == NoMatch {
        return UnknownType;
      }
      ApplyFilter();
      status := Filtered;
    }

    /** The `try` block of filter_csv: project the cleaned frame onto the resolved type's features. */
    method ApplyFilter()
      requires Valid()
      requires cleaned.Some? && (dataType == Type1 || dataType == Type2)
      modifies this`filtered
      ensures cleaned == old(cleaned) && filePath == old(filePath) && dataType == old(dataType)
      ensures classifiedFrom == old(classifiedFrom) && detected == old(detected)
      ensures Valid()
      ensures filtered == Some(Project(Features(dataType), cleaned.value))
      ensures classifiedFrom == cleaned ==>
        SelectedNames(Features(dataType), NameSet(cleaned.value.columns)) != []
    {
      FeaturesNoDuplicates(dataType);
      filtered := Some(Project(Features(dataType), cleaned.value));
      if classifiedFrom == cleaned {
        SelectionNonEmpty(cleaned.value, dataType);
      }
    }

    /** save_file: what would be written, if anything; no global changes. */
    method SaveFile(savePath: Option<string>) returns (status: SaveStatus, written: Option<Export>)
      requires Valid()
      ensures status == NoFilteredData <==> filtered.None?
      ensures status == NoFileName <==> filtered.Some? && !IsGiven(savePath)
      ensures written == if status == Saved then Some(Export(savePath.value, filtered.value)) else None
    {
      if filtered.None? {
        return NoFilteredData, None;
      }
      if !IsGiven(savePath) {
        return NoFileName, None;
      }
      status, written := Saved, Some(Export(savePath.value, filtered.value));
    }
  }

  /**
   * The intended order of the buttons on one file: upload, clear, filter,
   * save. The saved frame is the projection onto the resolved type, and it
   * exists exactly when the resolved type is known.
   */
  method ProcessFile(path: string, t: Table, yes: bool, savePath: string) returns (written: Option<Export>)
    requires path != "" && savePath != ""
    requires WellFormed(t)
    ensures var d := Resolve(ClassifyTable(t), yes);
      written == if d == NoMatch then None else Some(Export(savePath, Project(Features(d), t)))
    ensures written.Some? ==> SelectedNames(Features(Resolve(ClassifyTable(t), yes)), NameSet(t.columns)) != []
  {
    var session := new Session();
    var _ := session.UploadFile(Some(path), Some(t));
    var _ := session.ClearCsv(Some(t));
    var _ := session.FilterCsv(yes);
    var _, w := session.SaveFile(Some(savePath));
    written := w;
  }

  /**
   * Uploading a second file does not discard the first file's cleaned frame:
   * filtering straight away projects the first frame with the second file's
   * classification.
   */
  method ReuploadWithoutClear(first: Table, second: Table, yes: bool) returns (result: Option<Table>)
    requires WellFormed(first)
    ensures var d := Resolve(ClassifyTable(second), yes);
      result == if d == NoMatch then None else Some(Project(Features(d), first))
  {
    var session := new Session();
    var _ := session.UploadFile(Some("first.csv"), Some(first));
    var _ := session.ClearCsv(Some(first));
    var _ := session.UploadFile(Some("second.csv"), Some(second));
    var status := session.FilterCsv(yes);
    result := if status == Filtered then session.filtered else None;
  }
}
