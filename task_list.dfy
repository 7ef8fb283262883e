/** The badge lookups of the task list (`getPriorityColor`, `getPriorityLabel`). */
module TaskList {
  import opened TaskModel

  const HighPriorityClass := "bg-destructive text-destructive-foreground"
  const MediumPriorityClass := "bg-primary text-primary-foreground"
  const LowPriorityClass := "bg-muted text-muted-foreground"

  /**
   * `getPriorityColor`: one of three badge classes, a distinct one for `high`
   * and for `medium`; `low` and every other string share the muted class.
   */
  function PriorityColor(priority: string): (cls: string)
    ensures cls in {HighPriorityClass, MediumPriorityClass, LowPriorityClass}
    ensures cls == HighPriorityClass <==> priority == "high"
    ensures cls == MediumPriorityClass <==> priority == "medium"
  {
    match priority
    case "high" => HighPriorityClass
    case "medium" => MediumPriorityClass
    case "low" => LowPriorityClass
    case _ => LowPriorityClass
  }

  /**
   * `getPriorityLabel`: one of three Portuguese labels, `Alta` for exactly `high`,
   * `Baixa` for exactly `low`; `medium` and every other string read `Média`.
   */
  function PriorityLabel(priority: string): (text: string)
    ensures text in {"Alta", "Média", "Baixa"}
    ensures text == "Alta" <==> priority == "high"
    ensures text == "Baixa" <==> priority == "low"
  {
    match priority
    case "high" => "Alta"
    case "medium" => "Média"
    case "low" => "Baixa"
    case _ => "Média"
  }

  /** The three priorities a task can have get three different labels and three different badge classes. */
  lemma KnownPrioritiesDistinct(p: Priority, q: Priority)
    requires p != q
    ensures PriorityLabel(PriorityTag(p)) != PriorityLabel(PriorityTag(q))
    ensures PriorityColor(PriorityTag(p)) != PriorityColor(PriorityTag(q))
  {
  }

  /** An unknown priority string is labelled like `medium` and coloured like `low`. */
  lemma UnknownPriorityFallbacks(priority: string)
    requires priority !in {"low", "medium", "high"}
    ensures PriorityLabel(priority) == PriorityLabel("medium")
    ensures PriorityColor(priority) == PriorityColor("low")
  {
  }

  /** The arguments the completion button of a task's card hands to `onToggleComplete`. */
  datatype ToggleCall = ToggleCall(taskId: string, completed: bool)

  /** The card hands over its own task's id and the completion state the card shows. */
  function ToggleCallFor(t: Task): (call: ToggleCall)
    ensures call.taskId == t.id && call.completed == t.completed
  {
    ToggleCall(t.id, t.completed)
  }
}
