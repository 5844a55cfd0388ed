/** How the verdict a worker records comes from the report of its guest
    (`collect_result`, dispatch_http.rs). */
module Collect {
  import opened Common
  import opened Frames
  import opened Report

  /** What the words of a denial are is left open. */
  type Words = Denial -> string

  /** The result handed to the last update: the verdict, the reason, and whether an
      output object was stored. */
  datatype Result = Result(good: bool, reason: Option<string>, stored: bool)

  const LOST := "output persistence failed"

  /** `stores` says whether the output store takes the bytes; it is asked only if there
      are any. */
  function Collected(o: Outcome, stores: bool, words: Words): Result {
    var reason := if o.denial.Some? then Some(words(o.denial.value)) else None;
    if o.output != [] && !stores then
      Result(false, Some((if reason.Some? then reason.value + "; " else "") + LOST), false)
    else Result(Succeeded(o), reason, o.output != [])
  }

  /** `collect_result`. */
  method CollectResult(o: Outcome, stores: bool, words: Words) returns (r: Result)
    ensures r == Collected(o, stores, words)
  {
    var reason := if o.denial.Some? then Some(words(o.denial.value)) else None;
    var stored := false;
    if o.output != [] {
      if !stores {
        var prefix := if reason.Some? then reason.value + "; " else "";
        return Result(false, Some(prefix + LOST), false);
      }
      stored := true;
    }
    r := Result(Succeeded(o), reason, stored);
  }

  /** The reason is the denial's, and then the lost output; a good result has none. */
  lemma CollectedMeans(o: Outcome, stores: bool, words: Words)
    requires Succeeded(o) <==> o.denial.None?
    ensures var r := Collected(o, stores, words);
            && (r.good <==> Succeeded(o) && (o.output != [] ==> stores))
            && (r.good <==> r.reason.None?)
            && (r.stored <==> o.output != [] && stores)
            && (o.output == [] || stores ==>
                  r.reason == if o.denial.Some? then Some(words(o.denial.value)) else None)
            && (o.output != [] && !stores ==>
                  r.reason == Some((if o.denial.Some? then words(o.denial.value) + "; " else "")
                                   + "output persistence failed"))
  {
  }

  /** From the console to the record. An execution is recorded as succeeded exactly when
      the markers were exchanged, the guest shut down in time, its prefixed lines are
      one report that ends with exit code 0, and whatever it wrote is stored. */
  lemma RecordedSuccessMeans(console: string, limit: nat, timedOut: bool, shutdown: bool, read: Reader,
                             stores: bool, words: Words)
    ensures Collected(Reported(console, limit, timedOut, shutdown, read), stores, words).good <==>
              && Negotiated(Lines(console)) && shutdown && !timedOut
              && (exists p: Script ::
                    Proper(p) && p.end == Some(Exit(0)) && Items(Lines(console), read) == Play(p))
              && (Taken(Written(Live(Items(Lines(console), read))), limit) != [] ==> stores)
  {
    SuccessMeans(console, limit, timedOut, shutdown, read);
    DeniedUnlessSucceeded(console, limit, timedOut, shutdown, read);
    OutputOfEveryConsole(console, limit, timedOut, shutdown, read);
    CollectedMeans(Reported(console, limit, timedOut, shutdown, read), stores, words);
  }
}
