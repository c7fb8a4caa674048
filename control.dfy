/** `POST /api/control`: start, stop or restart the coturn service through systemctl. */
module ControlRoute {
  import opened Text
  import opened Http

  const ServiceName: string := "coturn"

  /** The actions the route accepts. */
  const Actions: seq<string> := ["start", "stop", "restart"]

  const InvalidActionMessage: string :=
    "Invalid or missing 'action' in JSON body. Must be 'start', 'stop', or 'restart'."

  /** What `request.json()` gives: the `action` field ("" when absent), or a parse error. */
  datatype ControlBody = ActionField(action: string) | ControlMalformed

  function ControlCommand(action: string): string {
    "sudo systemctl " + action + " " + ServiceName
  }

  function SuccessMessage(action: string): string {
    "Service " + ServiceName + " " + action + "ed successfully."
  }

  /** The `catch` block's message: the action read, or "control" when none was. */
  function FailureMessage(action: string): (m: string)
    ensures action != "" ==> m == "Failed to " + action + " coturn"
    ensures action == "" ==> m == "Failed to control coturn"
  {
    "Failed to " + (if action != "" then action else "control") + " " + ServiceName
  }

  /** `POST(request)`, with `exec` standing for `execSync`. */
  function Control(body: ControlBody, exec: string -> Exec): (h: Handled<Response>)
    ensures h.response.setCookie.None? && h.response.status in {200, 400, 500}
    ensures |h.commands| <= 1
    ensures h.commands != [] <==> body.ActionField? && body.action in Actions
    ensures h.commands != [] ==> h.commands == [ControlCommand(body.action)]
    ensures h.response.status == 400 <==> body.ActionField? && body.action !in Actions
    ensures h.response.status == 200 <==> h.commands != [] && exec(h.commands[0]).Ran?
    ensures h.response.status == 200 ==> h.response.message == SuccessMessage(body.action)
    ensures h.response.status == 500 ==>
              h.response.message == FailureMessage(if body.ActionField? then body.action else "")
  {
    match body
    case ControlMalformed => Handled(Response(500, FailureMessage(""), None), [])
    case ActionField(action) =>
      if action == "" || action !in Actions then Handled(Response(400, InvalidActionMessage, None), [])
      else
        var command := ControlCommand(action);
        match exec(command)
        case Ran(_, _) => Handled(Response(200, SuccessMessage(action), None), [command])
        case Threw(_, _, _) => Handled(Response(500, FailureMessage(action), None), [command])
  }

  /** Only three commands can ever be run. */
  lemma OnlyWhitelistedCommands(body: ControlBody, exec: string -> Exec)
    ensures forall c :: c in Control(body, exec).commands ==>
              c in {"sudo systemctl start coturn", "sudo systemctl stop coturn", "sudo systemctl restart coturn"}
  {
    assert ControlCommand("start") == "sudo systemctl start coturn";
    assert ControlCommand("stop") == "sudo systemctl stop coturn";
    assert ControlCommand("restart") == "sudo systemctl restart coturn";
  }

  /** A rejected action runs nothing and does not depend on what the commands would do. */
  lemma RejectedActionRunsNothing(action: string, exec1: string -> Exec, exec2: string -> Exec)
    requires action !in Actions
    ensures Control(ActionField(action), exec1) == Control(ActionField(action), exec2)
            == Handled(Response(400, InvalidActionMessage, None), [])
  {
  }
}
