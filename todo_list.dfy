/** The interviewer's personal to-do list: a list of task texts and the text being typed. */
module ToDoList {
  import opened JsStrings
  import opened JsArrays

  class ToDoListComponent {
    var tasks: seq<string>
    var newTask: string

    constructor ()
      ensures tasks == [] && newTask == ""
    {
      tasks := [];
      newTask := "";
    }

    /** The text input. */
    method SetNewTask(value: string)
      modifies this`newTask
      ensures newTask == value && tasks == old(tasks)
    {
      newTask := value;
    }

    /**
     * `addTask`: a whitespace-only text adds nothing; any other text is
     * appended as typed, untrimmed, and the input is cleared.
     */
    method AddTask()
      modifies this`tasks, this`newTask
      ensures IsBlank(old(newTask)) ==> tasks == old(tasks) && newTask == old(newTask)
      ensures !IsBlank(old(newTask)) ==> tasks == old(tasks) + [old(newTask)] && newTask == ""
      ensures !IsBlank(old(newTask)) ==> |tasks| == |old(tasks)| + 1 && tasks[..|old(tasks)|] == old(tasks)
    {
      if IsBlank(newTask) {
        return;
      }
      tasks := tasks + [newTask];
      newTask := "";
    }

    /** `removeTask(index)`: drops exactly position `index`; an index out of range changes nothing. */
    method RemoveTask(index: int)
      modifies this`tasks
      ensures 0 <= index < |old(tasks)| ==> tasks == old(tasks)[..index] + old(tasks)[index + 1..] && |tasks| == |old(tasks)| - 1
      ensures !(0 <= index < |old(tasks)|) ==> tasks == old(tasks)
    {
      tasks := ExceptIndex(tasks, index);
    }
  }
}
