/**
 * The department consumers: each listens on its stream, rebuilds the package from the message,
 * pops its own department off the head of the route (the Mail, Regular and Heavy departments
 * also write the package to the audit log) and forwards the package to the stream of the next
 * department on the route.
 */
module Consumers {
  import opened Results
  import opened Packages
  import opened Recorders

  /** Which Process runs: the base class's own, or one of the three department overrides. */
  datatype Department = Base | Mail | Regular | Heavy

  /** The source name an override passes to LogAsync. */
  function SourceName(kind: Department): string
    requires kind != Base
  {
    match kind
    case Mail => "Mail"
    case Regular => "Regular"
    case Heavy => "Heavy"
  }

  /** The stream a department listens on. */
  function StreamOf(department: string): string
  {
    department + "-stream"
  }

  /** The four properties after Process: the head of the route is gone, nothing else moved. */
  function Processed(d: PackageData): PackageData
  {
    if d.departments == [] then d else d.(departments := d.departments[1..])
  }

  /** What Forward produces for a package: one message to the head's stream, or nothing. */
  function Forwarded(codec: Codec, d: PackageData): seq<Message>
  {
    if d.departments == [] then [] else [Message(StreamOf(d.departments[0]), codec.encode(d))]
  }

  /** The debug line Forward writes. */
  function ForwardNote(route: seq<string>): string
  {
    if route == [] then "No more consumers to forward the package to."
    else "Forwarding package to " + route[0] + "."
  }

  /** The audit entries Process writes for a package whose properties after the pop are d. */
  function Audit(kind: Department, codec: Codec, d: PackageData): seq<AuditEntry>
  {
    if kind == Base then [] else [AuditEntry(SourceName(kind), codec.encode(d))]
  }

  /** The messages one run of the Listen handler produces for the text it received. */
  function Hop(codec: Codec, data: string): (out: seq<Message>)
    ensures |out| <= 1
  {
    match Decode(codec, data)
    case Err(_) => []
    case Ok(d) => Forwarded(codec, Processed(d))
  }

  /**
   * The messages produced when the text is handled and every message produced is handed, in
   * turn, to the consumer of its stream, for at most n hops.
   */
  function Chain(codec: Codec, data: string, n: nat): seq<Message>
    decreases n
  {
    if n == 0 then []
    else
      var out := Hop(codec, data);
      if out == [] then [] else out + Chain(codec, out[0].payload, n - 1)
  }

  /**
   * One hop: a package that arrives with a non-empty route leaves with its tail. When that tail
   * is non-empty, exactly one message goes to the stream of its head and carries the package
   * with that tail; with an empty tail nothing goes out.
   */
  lemma HopShortens(codec: Codec, d: PackageData)
    requires Sound(codec)
    ensures |d.departments| <= 1 <==> Hop(codec, codec.encode(d)) == []
    ensures |d.departments| > 1 ==>
      Hop(codec, codec.encode(d)) ==
        [Message(StreamOf(d.departments[1]), codec.encode(d.(departments := d.departments[1..])))]
  {
    DecodeEncode(codec, d);
  }

  /**
   * The whole journey: a package that arrives with route r is forwarded exactly |r| - 1 more
   * times (n hops allowing), the k-th time to the stream of r[k + 1], carrying the package
   * whose route is r[k + 1..]; it then reaches a consumer with a single department left and
   * goes no further.
   */
  lemma {:induction false} ChainSpec(codec: Codec, d: PackageData, n: nat)
    requires Sound(codec) && |d.departments| > 0
    ensures var c := Chain(codec, codec.encode(d), n);
      && |c| == (if n < |d.departments| - 1 then n else |d.departments| - 1)
      && forall k :: 0 <= k < |c| ==>
           c[k] == Message(StreamOf(d.departments[k + 1]), codec.encode(d.(departments := d.departments[k + 1..])))
    decreases n
  {
    HopShortens(codec, d);
    if n > 0 && |d.departments| > 1 {
      var p := d.(departments := d.departments[1..]);
      ChainSpec(codec, p, n - 1);
      var c := Chain(codec, codec.encode(d), n);
      var m := Message(StreamOf(d.departments[1]), codec.encode(p));
      assert c == [m] + Chain(codec, codec.encode(p), n - 1);
      forall k | 0 <= k < |c|
        ensures c[k] == Message(StreamOf(d.departments[k + 1]), codec.encode(d.(departments := d.departments[k + 1..])))
      {
        if k > 0 {
          assert p.departments[k..] == d.departments[k + 1..];
          assert p.(departments := p.departments[k..]) == d.(departments := d.departments[k + 1..]);
        }
      }
    }
  }

  /** Consumer and its Mail, Regular and Heavy subclasses. */
  class Consumer {
    const kind: Department
    const queue: QueueRecorder
    const processLogger: LogRecorder
    const codec: Codec
    /** The lines written to the ILogger at debug level. */
    var debugLog: seq<string>

    constructor(kind: Department, queue: QueueRecorder, processLogger: LogRecorder, codec: Codec)
      ensures this.kind == kind && this.queue == queue && this.processLogger == processLogger
      ensures this.codec == codec && debugLog == []
    {
      this.kind := kind;
      this.queue := queue;
      this.processLogger := processLogger;
      this.codec := codec;
      debugLog := [];
    }

    /** Consumer.Process: remove the head of the route in place, when there is one. */
    method ProcessBase(package: Package)
      modifies package
      ensures old(package.departments) != [] ==> package.departments == old(package.departments)[1..]
      ensures old(package.departments) == [] ==> package.departments == []
      ensures package.id == old(package.id) && package.metadata == old(package.metadata)
      ensures package.parcel == old(package.parcel)
    {
      if |package.departments| > 0 {
        package.departments := package.departments[1..];
      }
    }

    /**
     * Process as the department runs it: the base pop, then, in the Mail, Regular and Heavy
     * overrides, one audit entry holding the package as it is after the pop.
     */
    method Process(package: Package)
      modifies package, processLogger
      ensures package.Data() == Processed(old(package.Data()))
      ensures processLogger.entries == old(processLogger.entries) + Audit(kind, codec, package.Data())
    {
      match kind
      case Base => ProcessBase(package);
      case Mail => MailProcess(package);
      case Regular => RegularProcess(package);
      case Heavy => HeavyProcess(package);
    }

    /** MailConsumer.Process: the base pop, then the package's text to the audit log as "Mail". */
    method MailProcess(package: Package)
      modifies package, processLogger
      ensures package.Data() == Processed(old(package.Data()))
      ensures processLogger.entries == old(processLogger.entries) + [AuditEntry("Mail", codec.encode(package.Data()))]
    {
      ProcessBase(package);
      var payload := package.ToString(codec);
      processLogger.LogAsync("Mail", payload);
    }

    /** RegularConsumer.Process: the base pop, then the package's text to the audit log as "Regular". */
    method RegularProcess(package: Package)
      modifies package, processLogger
      ensures package.Data() == Processed(old(package.Data()))
      ensures processLogger.entries == old(processLogger.entries) + [AuditEntry("Regular", codec.encode(package.Data()))]
    {
      ProcessBase(package);
      var payload := package.ToString(codec);
      processLogger.LogAsync("Regular", payload);
    }

    /** HeavyConsumer.Process: the base pop, then the package's text to the audit log as "Heavy". */
    method HeavyProcess(package: Package)
      modifies package, processLogger
      ensures package.Data() == Processed(old(package.Data()))
      ensures processLogger.entries == old(processLogger.entries) + [AuditEntry("Heavy", codec.encode(package.Data()))]
    {
      ProcessBase(package);
      var payload := package.ToString(codec);
      processLogger.LogAsync("Heavy", payload);
    }

    /**
     * Consumer.Forward (no department overrides it): with a route, produce the package's text
     * on the head department's stream and note it; without one, only note that the trip ends.
     * The package is not modified.
     */
    method Forward(package: Package)
      modifies this, queue
      ensures queue.produced == old(queue.produced) + Forwarded(codec, package.Data())
      ensures debugLog == old(debugLog) + [ForwardNote(package.departments)]
    {
      if |package.departments| > 0 {
        var nextConsumer := package.departments[0];
        var streamKey := nextConsumer + "-stream";
        var payload := package.ToString(codec);
        var _ := queue.Produce(streamKey, payload);
        debugLog := debugLog + ["Forwarding package to " + nextConsumer + "."];
      } else {
        debugLog := debugLog + ["No more consumers to forward the package to."];
      }
    }

    /**
     * The Listen handler: rebuild the package from the text, Process it, Forward it. When the
     * text is refused nothing is logged or produced; the error is what the handler throws.
     */
    method Handle(data: string) returns (r: Result<Package, PackageError>)
      modifies this, queue, processLogger
      ensures queue.produced == old(queue.produced) + Hop(codec, data)
      ensures r.Err? ==> Decode(codec, data) == Err(r.error)
      ensures r.Err? ==> processLogger.entries == old(processLogger.entries) && debugLog == old(debugLog)
      ensures r.Ok? ==> fresh(r.value) && Decode(codec, data).Ok?
      ensures r.Ok? ==> r.value.Data() == Processed(Decode(codec, data).value)
      ensures r.Ok? ==> processLogger.entries == old(processLogger.entries) + Audit(kind, codec, r.value.Data())
      ensures r.Ok? ==> debugLog == old(debugLog) + [ForwardNote(r.value.departments)]
    {
      r := Package.FromJson(codec, data);
      if r.Ok? {
        Process(r.value);
        Forward(r.value);
      }
    }
  }
}
