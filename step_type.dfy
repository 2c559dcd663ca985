/**
 * The launcher's step record (StepType.java): a class name, a lazily created,
 * live list of extra arguments, and the passuserargs attribute.
 */
module StepTypes {
  import opened Wrappers

  /** The value of a step as the launcher reads it through the getters. */
  datatype Step = Step(className: Option<string>, argument: seq<string>, passuserargs: Option<string>)

  /** A mutable list of strings: the java.util.List that getArgument hands out. */
  class ArgumentList {
    var items: seq<string>

    constructor ()
      ensures items == []
    {
      items := [];
    }

    method Add(item: string)
      modifies this
      ensures items == old(items) + [item]
    {
      items := items + [item];
    }
  }

  class StepType {
    var className: Option<string>
    var argument: ArgumentList?
    var passuserargs: Option<string>

    /** A freshly unmarshalled step with no element or attribute set. */
    constructor ()
      ensures className == None && argument == null && passuserargs == None
    {
      className := None;
      argument := null;
      passuserargs := None;
    }

    /** What the launcher sees: a list that was never created reads as empty. */
    function View(): (s: Step)
      reads this, argument
      ensures s.className == className && s.passuserargs == passuserargs
      ensures argument == null ==> s.argument == []
      ensures argument != null ==> s.argument == argument.items
    {
      Step(className, if argument == null then [] else argument.items, passuserargs)
    }

    method GetClassName() returns (value: Option<string>)
      ensures value == className
    {
      value := className;
    }

    method SetClassName(value: Option<string>)
      modifies this`className
      ensures className == value
    {
      className := value;
    }

    /**
     * Never yields null: the first call creates an empty list and stores it,
     * every call hands out the stored list itself, not a copy.
     */
    method GetArgument() returns (list: ArgumentList)
      modifies this`argument
      ensures argument == list
      ensures old(argument) != null ==> list == old(argument)
      ensures old(argument) == null ==> fresh(list) && list.items == []
      ensures View() == old(View())
    {
      if argument == null {
        argument := new ArgumentList();
      }
      list := argument;
    }

    method GetPassuserargs() returns (value: Option<string>)
      ensures value == passuserargs
    {
      value := passuserargs;
    }

    method SetPassuserargs(value: Option<string>)
      modifies this`passuserargs
      ensures passuserargs == value
    {
      passuserargs := value;
    }
  }

  /** An item added to the list getArgument returns is part of the step from then on. */
  method AddArgument(step: StepType, item: string) returns (list: ArgumentList)
    modifies step`argument, step.argument
    ensures list == step.argument
    ensures step.View() == old(step.View()).(argument := old(step.View()).argument + [item])
  {
    list := step.GetArgument();
    list.Add(item);
    var again := step.GetArgument();
    assert again == list;
  }

  /** Setting the class name and reading it back yields the value set; nothing else changes. */
  method SetThenGetClassName(step: StepType, value: Option<string>) returns (read: Option<string>)
    modifies step`className
    ensures read == value
    ensures step.View() == old(step.View()).(className := value)
  {
    step.SetClassName(value);
    read := step.GetClassName();
  }

  /** Setting passuserargs and reading it back yields the value set; nothing else changes. */
  method SetThenGetPassuserargs(step: StepType, value: Option<string>) returns (read: Option<string>)
    modifies step`passuserargs
    ensures read == value
    ensures step.View() == old(step.View()).(passuserargs := value)
  {
    step.SetPassuserargs(value);
    read := step.GetPassuserargs();
  }
}
