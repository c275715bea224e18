/**
 * The rule installer: the argument vector of `tc filter add|delete ... action nat ingress`
 * for one redirect rule, and a model of the kernel's rule table that those commands edit.
 */
module Tc {
  import opened Wrappers
  import Decimal

  datatype Verb = Add | Delete

  /** A redirect rule: ingress of `iface`, priority `prio`, match `dst ip`, rewrite to `route`. */
  datatype Rule = Rule(iface: string, prio: int, ip: string, route: string)

  /** One `tc` invocation. */
  datatype TcCall = TcCall(verb: Verb, rule: Rule)

  function VerbWord(v: Verb): string {
    match v
    case Add => "add"
    case Delete => "delete"
  }

  /** The vector given to `exec.Command`, program name first. */
  function Args(call: TcCall): (args: seq<string>)
    ensures |args| == 21 && args[2] == VerbWord(call.verb)
    ensures args[4] == call.rule.iface && args[10] == Decimal.Itoa(call.rule.prio)
    ensures args[15] == call.rule.ip && args[19] == call.rule.ip && args[20] == call.rule.route
  {
    var r := call.rule;
    ["tc", "filter", VerbWord(call.verb), "dev", r.iface, "parent", "ffff:",
     "protocol", "ip",
     "prio", Decimal.Itoa(r.prio), "u32",
     "match", "ip", "dst", r.ip,
     "action", "nat", "ingress", r.ip, r.route]
  }

  /** The `add` and `delete` vectors for one rule agree everywhere except at the verb. */
  lemma AddDeleteDifferOnlyInVerb(r: Rule)
    ensures |Args(TcCall(Add, r))| == |Args(TcCall(Delete, r))|
    ensures forall i :: 0 <= i < 21 && i != 2 ==> Args(TcCall(Add, r))[i] == Args(TcCall(Delete, r))[i]
    ensures Args(TcCall(Add, r))[2] == "add" && Args(TcCall(Delete, r))[2] == "delete"
  {
  }

  /** Reads a vector back into the call it stands for, or `None` if it is not one. */
  function ParseArgs(args: seq<string>): Option<TcCall> {
    if |args| != 21 then None
    else if args[0] != "tc" || args[1] != "filter" || args[3] != "dev" || args[5] != "parent"
      || args[6] != "ffff:" || args[7] != "protocol" || args[8] != "ip" || args[9] != "prio"
      || args[11] != "u32" || args[12] != "match" || args[13] != "ip" || args[14] != "dst"
      || args[16] != "action" || args[17] != "nat" || args[18] != "ingress"
      || args[15] != args[19] then None
    else if args[2] != "add" && args[2] != "delete" then None
    else match Decimal.ParseInt(args[10])
      case None => None
      case Some(prio) =>
        Some(TcCall(if args[2] == "add" then Add else Delete, Rule(args[4], prio, args[15], args[20])))
  }

  /** Every call's vector parses back to that call, so distinct calls give distinct commands. */
  lemma ParseArgsRoundTrip(call: TcCall)
    ensures ParseArgs(Args(call)) == Some(call)
  {
    Decimal.ParseIntItoa(call.rule.prio);
  }

  lemma ArgsInjective(a: TcCall, b: TcCall)
    requires Args(a) == Args(b)
    ensures a == b
  {
    ParseArgsRoundTrip(a);
    ParseArgsRoundTrip(b);
  }

  /**
   * The kernel's rule table after `calls`: an add installs the rule, a delete removes it, and a
   * delete of a rule that is not installed fails and changes nothing (the error is only logged).
   */
  function Apply(installed: set<Rule>, calls: seq<TcCall>): set<Rule>
    decreases |calls|
  {
    if calls == [] then installed
    else
      var t := Apply(installed, calls[..|calls| - 1]);
      var c := calls[|calls| - 1];
      match c.verb
      case Add => t + {c.rule}
      case Delete => t - {c.rule}
  }

  lemma ApplyAppend(installed: set<Rule>, calls: seq<TcCall>, more: seq<TcCall>)
    ensures Apply(installed, calls + more) == Apply(Apply(installed, calls), more)
    decreases |more|
  {
    if more == [] {
      assert calls + more == calls;
    } else {
      var m := more[..|more| - 1];
      assert (calls + more)[..|calls + more| - 1] == calls + m;
      ApplyAppend(installed, calls, m);
    }
  }
}
