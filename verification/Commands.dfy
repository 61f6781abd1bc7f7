/** What one worker does with one command (`Laborer::runReal`, src/ats2/laborerThread.cpp). */
module Commands {

  /** The kinds of command that carry the worker's state; all others only add text of their own. */
  datatype Command =
    | Plain(text: string)
    | Restart(text: string, on: bool)
    | Skip(begin: bool)
    | Query(text: string, loc: nat)

  /** Everything the server and its client answer to one query. */
  datatype Reply = Reply(
    logonOk: bool, executeOk: bool, connectionLost: bool, shown: string,
    relogonOk: bool, reexecuteOk: bool, reshown: string, failure: string)

  /** The worker's own state between commands. */
  datatype Local = Local(result: string, skipping: bool, retry: bool, loggedOn: bool)

  const FRESH: Local := Local("", false, true, false)

  datatype Outcome = Outcome(local: Local, ok: bool)

  function Digit(n: nat): char
    requires n < 10
  {
    "0123456789"[n]
  }

  function Decimal(n: nat): string {
    if n < 10 then [Digit(n)] else Decimal(n / 10) + [Digit(n % 10)]
  }

  /** The status line that opens a fatal report; commands without a line number have none. */
  function Status(process: string, c: Command): string {
    if c.Query? && c.loc != 0 then "+ $" + process + "> (" + Decimal(c.loc) + ") " + c.text else ""
  }

  function Terminated(query: string): string {
    if query != "" && query[|query| - 1] == ';' then query else query + ";"
  }

  /** The text a query leaves: its answer, or between SKIP BEGIN and SKIP END only itself. */
  function Shown(process: string, query: string, local: Local, answer: string): string {
    if local.skipping then "$" + process + "> " + Terminated(query) else answer
  }

  function Failed(process: string, c: Command, local: Local, r: Reply): Outcome {
    Outcome(local.(result := local.result + Status(process, c) + "\n" + r.failure), false)
  }

  function PerformQuery(process: string, c: Command, r: Reply, local: Local): Outcome
    requires c.Query?
  {
    var on := local.(loggedOn := true);
    if !local.loggedOn && !r.logonOk then Failed(process, c, on, r)
    else if !r.executeOk then Failed(process, c, on, r)
    else if r.connectionLost && local.retry then
      if !r.relogonOk || !r.reexecuteOk then Failed(process, c, on, r)
      else Outcome(on.(result := on.result + Shown(process, c.text, on, r.reshown)), true)
    else Outcome(on.(result := on.result + Shown(process, c.text, on, r.shown)), true)
  }

  /** One turn of the command loop, after the command was taken from the queue. */
  function Perform(process: string, c: Command, r: Reply, local: Local): Outcome {
    match c
    case Plain(t) => Outcome(local.(result := local.result + t), true)
    case Restart(t, on) => Outcome(local.(result := local.result + t, retry := on), true)
    case Skip(begin) =>
      Outcome(local.(result := local.result + (if begin then "--+SKIP BEGIN; " else "--+SKIP END; "), skipping := begin), true)
    case Query(_, _) => PerformQuery(process, c, r, local)
  }
}
