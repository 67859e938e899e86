/**
 * QueueWorker, the rule checker: it holds the active rule list, reloads it from the rule book
 * when the file changes, and for every parcel on the parcel stream builds a package routed to
 * the parcel's departments and sends it to the first department's stream.
 *
 * The rule-book file is a parameter (None when it does not exist), the XML deserializer a
 * function, the stopping token a flag and the fresh package id a string.
 */
module Router {
  import opened Results
  import opened Text
  import opened Data
  import opened Recorders
  import Rules
  import RuleGrammar
  import RuleExtensions
  import Packages
  import Consumers

  /** What XmlSerializer.Deserialize(reader) as Parcel gives for a text. */
  datatype ParcelXml = Read(parcel: Parcel) | NullParcel | XmlError

  /** The lines the worker writes to its ILogger that the routing depends on. */
  datatype LogLine =
    | RulesReloaded        // "Rules reloaded from rules-book.txt."
    | Cancelled            // "Cancellation requested, stopping processing."
    | NotAParcel(data: string)  // "Failed to deserialize Parcel from data: {data}"
    | ProcessingError      // "Error processing parcel data."

  /** The text GetRules parses when the rule book does not exist. */
  const MissingRuleBook: string := "File not found."

  /**
   * What GetRules returns, or the exception it throws: the rules of the rule book, or, when
   * the file does not exist, the format exception for the stand-in text (MissingRuleBookFails).
   */
  function LoadRules(ruleFile: Option<string>): Result<seq<Rules.Rule>, Rules.RuleError>
  {
    match ruleFile
    case Some(text) => Rules.ParseAll(Rules.SplitLines(text))
    case None => Err(Rules.InvalidRuleFormat(MissingRuleBook))
  }

  /** Every rule in the list came out of the grammar. */
  predicate AllWellFormed(rules: seq<Rules.Rule>)
  {
    forall i :: 0 <= i < |rules| ==> Rules.WellFormedCaptures(rules[i])
  }

  /** A successful load holds only rules the grammar produced. */
  lemma LoadRulesWellFormed(ruleFile: Option<string>)
    ensures LoadRules(ruleFile).Ok? ==> AllWellFormed(LoadRules(ruleFile).value)
  {
    if ruleFile.Some? {
      Rules.ParseAllSpec(Rules.SplitLines(ruleFile.value));
    }
  }

  /** The stand-in text is a single line that neither starts nor ends with white space. */
  lemma MissingRuleBookLine()
    ensures Rules.SplitLines(MissingRuleBook) == [MissingRuleBook]
    ensures Trim(MissingRuleBook) == MissingRuleBook
  {
    var t := MissingRuleBook;
    assert t == t + "";
    Rules.SplitLinesOfLine(t, "");
    TrimOfTrimmed(t);
  }

  /** The stand-in text's first word is not followed by ':', so the grammar refuses it. */
  lemma MissingRuleBookNoMatch()
    ensures RuleGrammar.MatchRule(MissingRuleBook).None?
  {
    RunEndUnique(MissingRuleBook, 0, 4, Word);
  }

  /** Without a rule book there are no rules: the stand-in text is refused by the grammar. */
  lemma MissingRuleBookFails()
    ensures Rules.ParseAll(Rules.SplitLines(MissingRuleBook)) == Err(Rules.InvalidRuleFormat(MissingRuleBook))
  {
    MissingRuleBookLine();
    MissingRuleBookNoMatch();
    assert Rules.ParseLine(MissingRuleBook) == Err(Rules.InvalidRuleFormat(MissingRuleBook));
    Rules.ParseAllSpec([MissingRuleBook]);
  }

  /**
   * The package a parcel is routed with: the departments whose rules all hold, or None when
   * no department matches.
   */
  function Routed(rules: seq<Rules.Rule>, parcel: Parcel, id: string): Option<Packages.PackageData>
  {
    var departments := RuleExtensions.Departments(rules, parcel);
    if departments == [] then None else Some(Packages.PackageData(id, departments, [], parcel))
  }

  /**
   * Rules that came out of the grammar have non-blank names, so building the package fails
   * only when no department matched, and then with the empty-set exception; otherwise the
   * package routes through every matched department once, with no metadata.
   */
  lemma RoutedSpec(rules: seq<Rules.Rule>, parcel: Parcel, id: string)
    requires AllWellFormed(rules)
    ensures var departments := RuleExtensions.Departments(rules, parcel);
      && Distinct(departments)
      && Packages.Assemble(Some(parcel), Some(departments), id) ==
         (if departments == [] then Err(Packages.NoDepartments) else Ok(Routed(rules, parcel, id).value))
  {
    var departments := RuleExtensions.Departments(rules, parcel);
    RuleExtensions.DepartmentsDistinct(rules, parcel);
    forall i | 0 <= i < |departments|
      ensures !IsWhiteSpace(departments[i])
    {
      var x := departments[i];
      RuleExtensions.DepartmentsSpec(rules, parcel, x);
      var j :| 0 <= j < |rules| && rules[j].name == x;
      assert !IsSpace(x[0]);
    }
  }

  class QueueWorker {
    /** The active rule list (_rules). */
    var rules: seq<Rules.Rule>
    var log: seq<LogLine>
    const queue: QueueRecorder
    const processLogger: LogRecorder
    const codec: Packages.Codec
    const readXml: string -> ParcelXml

    ghost predicate Valid()
      reads this
    {
      AllWellFormed(rules)
    }

    constructor Init(queue: QueueRecorder, processLogger: LogRecorder, codec: Packages.Codec,
                     readXml: string -> ParcelXml, rules: seq<Rules.Rule>)
      ensures this.queue == queue && this.processLogger == processLogger
      ensures this.codec == codec && this.readXml == readXml
      ensures this.rules == rules && log == []
    {
      this.queue := queue;
      this.processLogger := processLogger;
      this.codec := codec;
      this.readXml := readXml;
      this.rules := rules;
      log := [];
    }

    /** GetRules: parse the rule book, or the stand-in text when the file is missing. */
    static method GetRules(ruleFile: Option<string>) returns (r: Result<seq<Rules.Rule>, Rules.RuleError>)
      ensures r == LoadRules(ruleFile)
    {
      if ruleFile.None? {
        MissingRuleBookFails();
        r := Rules.ParseRules(MissingRuleBook);
      } else {
        r := Rules.ParseRules(ruleFile.value);
      }
    }

    /** The QueueWorker constructor: it throws when the rule book does not parse. */
    static method Create(queue: QueueRecorder, processLogger: LogRecorder, codec: Packages.Codec,
                         readXml: string -> ParcelXml, ruleFile: Option<string>)
      returns (r: Result<QueueWorker, Rules.RuleError>)
      ensures r.Err? ==> LoadRules(ruleFile) == Err(r.error)
      ensures r.Ok? ==> fresh(r.value) && r.value.Valid() && LoadRules(ruleFile) == Ok(r.value.rules)
      ensures r.Ok? ==> r.value.queue == queue && r.value.processLogger == processLogger
      ensures r.Ok? ==> r.value.codec == codec && r.value.readXml == readXml && r.value.log == []
    {
      var loaded := GetRules(ruleFile);
      if loaded.Err? {
        return Err(loaded.error);
      }
      LoadRulesWellFormed(ruleFile);
      var worker := new QueueWorker.Init(queue, processLogger, codec, readXml, loaded.value);
      r := Ok(worker);
    }

    /**
     * ReloadRules: the rule book is parsed before the exchange, so when it does not parse the
     * exception leaves the active rules as they were; otherwise the whole list is replaced.
     */
    method ReloadRules(ruleFile: Option<string>) returns (r: Result<seq<Rules.Rule>, Rules.RuleError>)
      requires Valid()
      modifies this
      ensures Valid() && r == LoadRules(ruleFile)
      ensures r.Err? ==> rules == old(rules) && log == old(log)
      ensures r.Ok? ==> rules == r.value && log == old(log) + [RulesReloaded]
    {
      r := GetRules(ruleFile);
      LoadRulesWellFormed(ruleFile);
      if r.Ok? {
        rules := r.value;
        log := log + [RulesReloaded];
      }
    }

    /**
     * Send: build the package (its constructor may throw), produce its text on the stream of
     * the first department, then write the same text to the audit log as "RuleChecker".
     */
    method Send(parcel: Parcel, departments: seq<string>, id: string) returns (r: Result<Packages.Package, Packages.PackageError>)
      requires Distinct(departments)
      modifies queue, processLogger
      ensures r.Err? ==> Packages.Assemble(Some(parcel), Some(departments), id) == Err(r.error)
      ensures r.Err? ==> queue.produced == old(queue.produced) && processLogger.entries == old(processLogger.entries)
      ensures r.Ok? ==> fresh(r.value) && Packages.Assemble(Some(parcel), Some(departments), id) == Ok(r.value.Data())
      ensures r.Ok? ==> r.value.departments != [] && r.value.departments[0] == departments[0]
      ensures r.Ok? ==>
        queue.produced == old(queue.produced) + [Message(Consumers.StreamOf(departments[0]), codec.encode(r.value.Data()))]
      ensures r.Ok? ==>
        processLogger.entries == old(processLogger.entries) + [AuditEntry("RuleChecker", codec.encode(r.value.Data()))]
    {
      r := Packages.Package.New(Some(parcel), Some(departments), id);
      if r.Err? {
        return;
      }
      var package := r.value;
      var streamKey := departments[0] + "-stream";
      var payload := package.ToString(codec);
      var _ := queue.Produce(streamKey, payload);
      processLogger.LogAsync("RuleChecker", payload);
    }

    /**
     * The handler of the parcel stream: stop when cancellation is requested, read the parcel,
     * skip a null parcel with a warning, match it against the current rules and send it. An
     * exception (unreadable XML, no matching department) is caught and logged.
     */
    method Handle(data: string, cancelled: bool, id: string)
      requires Valid()
      modifies this, queue, processLogger
      ensures rules == old(rules)
      ensures var routed := if !cancelled && readXml(data).Read? then Routed(rules, readXml(data).parcel, id) else None;
        && (routed.None? ==> queue.produced == old(queue.produced) && processLogger.entries == old(processLogger.entries))
        && (routed.Some? ==>
             && queue.produced == old(queue.produced) + [Message(Consumers.StreamOf(routed.value.departments[0]), codec.encode(routed.value))]
             && processLogger.entries == old(processLogger.entries) + [AuditEntry("RuleChecker", codec.encode(routed.value))])
      ensures log == old(log) + (
        if cancelled then [Cancelled]
        else if readXml(data).NullParcel? then [NotAParcel(data)]
        else if readXml(data).XmlError? || Routed(rules, readXml(data).parcel, id).None? then [ProcessingError]
        else [])
    {
      if cancelled {
        log := log + [Cancelled];
        return;
      }
      var xml := readXml(data);
      if xml.XmlError? {
        log := log + [ProcessingError];
        return;
      }
      if xml.NullParcel? {
        log := log + [NotAParcel(data)];
        return;
      }
      var parcel := xml.parcel;
      var departments := RuleExtensions.GetDepartments(rules, parcel);
      RoutedSpec(rules, parcel, id);
      var sent := Send(parcel, departments, id);
      if sent.Err? {
        log := log + [ProcessingError];
      }
    }
  }
}
