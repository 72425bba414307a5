/** Mark toggling (`toggleMark` in app/editor/WithImages.tsx): read the marks
    at the cursor and either remove the mark or set it to `true`. */
module Marks {
  import opened Wrappers
  import opened Nodes

  /** `marks ? marks[format] === true : false`: a missing marks object, a
      missing key, `false` or any non-boolean value all read as inactive. */
  predicate IsMarkActive(marks: Option<MarkMap>, format: string)
  {
    marks.Some? && format in marks.value && marks.value[format] == Flag(true)
  }

  /** The two library calls `toggleMark` can make. */
  datatype MarkCommand = RemoveMark(key: string) | AddMark(key: string, value: MarkValue)

  /** The call `toggleMark(editor, format)` makes, given the marks the library
      reports at the selection. */
  function ToggleMark(marks: Option<MarkMap>, format: string): (cmd: MarkCommand)
    ensures cmd.key == format
    ensures cmd.RemoveMark? <==> IsMarkActive(marks, format)
    ensures cmd.AddMark? ==> cmd.value == Flag(true)
  {
    if IsMarkActive(marks, format) then RemoveMark(format) else AddMark(format, Flag(true))
  }

  /** The marks after a command. With no selection the library reports no
      marks and both calls do nothing, so the marks stay absent. Otherwise
      the command deletes or sets its one key and keeps every other entry. */
  function ApplyMarkCommand(marks: Option<MarkMap>, cmd: MarkCommand): (after: Option<MarkMap>)
    ensures after.Some? <==> marks.Some?
    ensures after.Some? && cmd.RemoveMark? ==> cmd.key !in after.value
    ensures after.Some? && cmd.AddMark? ==> cmd.key in after.value && after.value[cmd.key] == cmd.value
    ensures after.Some? ==>
      forall k :: k in after.value && k != cmd.key ==> k in marks.value && after.value[k] == marks.value[k]
    ensures after.Some? ==>
      forall k :: k in marks.value && k != cmd.key ==> k in after.value && after.value[k] == marks.value[k]
  {
    match marks
    case None => None
    case Some(current) =>
      match cmd
      case RemoveMark(key) => Some(current - {key})
      case AddMark(key, value) => Some(current[key := value])
  }

  /** The marks after `toggleMark(editor, format)`. */
  function Toggled(marks: Option<MarkMap>, format: string): Option<MarkMap>
  {
    ApplyMarkCommand(marks, ToggleMark(marks, format))
  }

  /** With a selection, one toggle flips the mark's status and leaves every
      other mark's status as it was; with none, the mark stays inactive and
      the marks stay absent. */
  lemma ToggleMarkFlipsStatus(marks: Option<MarkMap>, format: string)
    ensures marks.Some? ==> IsMarkActive(Toggled(marks, format), format) == !IsMarkActive(marks, format)
    ensures marks.None? ==> Toggled(marks, format).None? && !IsMarkActive(Toggled(marks, format), format)
    ensures forall k :: k != format ==> IsMarkActive(Toggled(marks, format), k) == IsMarkActive(marks, k)
  {
  }

  /** Two toggles with no edit between them restore the status of every mark,
      the toggled one included, and every other key keeps its value. */
  lemma ToggleMarkTwiceRestoresStatus(marks: Option<MarkMap>, format: string)
    ensures var twice := Toggled(Toggled(marks, format), format);
      && twice.Some? == marks.Some?
      && (forall k :: IsMarkActive(twice, k) == IsMarkActive(marks, k))
      && (twice.Some? ==> forall k :: k != format ==> (k in twice.value <==> k in marks.value))
      && (twice.Some? ==> forall k :: k in twice.value && k != format ==> twice.value[k] == marks.value[k])
  {
  }

  /** Only the status is restored, not the map: a mark stored as `false` is
      inactive, the first toggle sets it to `true` and the second deletes the
      key, so the `false` entry is gone. */
  lemma DoubleToggleDropsFalseEntry()
    ensures var marks := Some(map["bold" := Flag(false)]);
      && "bold" in marks.value
      && "bold" !in Toggled(Toggled(marks, "bold"), "bold").value
  {
  }
}
