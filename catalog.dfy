/**
 * The launcher's command catalog and the case-insensitive command lookup
 * (ScriptLauncher.runOneCommand, lines 107-118; getConfig, lines 274-276).
 */
module Catalog {
  import opened Wrappers
  import opened StepTypes

  datatype Command = Command(name: string, description: string, steps: seq<Step>)

  /** Case folding of String.equalsIgnoreCase, restricted to ASCII letters. */
  function FoldCase(c: char): char
  {
    if 'A' <= c <= 'Z' then (c as int + 32) as char else c
  }

  predicate EqualsIgnoreCase(a: string, b: string)
  {
    |a| == |b| && forall i :: 0 <= i < |a| ==> FoldCase(a[i]) == FoldCase(b[i])
  }

  /** The request names this command, ignoring case. */
  predicate Names(request: string, command: Command)
  {
    EqualsIgnoreCase(request, command.name)
  }

  /** The catalog getConfig builds: service-registered commands first, then those of launcher.xml. */
  function Config(registered: seq<Command>, fromFile: seq<Command>): (catalog: seq<Command>)
    ensures |catalog| == |registered| + |fromFile|
    ensures catalog[..|registered|] == registered && catalog[|registered|..] == fromFile
  {
    registered + fromFile
  }

  /** The first command, in catalog order, that the request names. */
  function Lookup(catalog: seq<Command>, request: string): (found: Option<Command>)
    ensures found.None? <==> forall i :: 0 <= i < |catalog| ==> !Names(request, catalog[i])
    ensures found.Some? ==>
      exists i :: 0 <= i < |catalog| && catalog[i] == found.value && Names(request, catalog[i]) &&
        forall j :: 0 <= j < i ==> !Names(request, catalog[j])
  {
    if catalog == [] then None
    else if Names(request, catalog[0]) then Some(catalog[0])
    else
      var rest := Lookup(catalog[1..], request);
      assert forall i :: 1 <= i < |catalog| ==> catalog[i] == catalog[1..][i - 1];
      rest
  }

  /** The lookup loop of runOneCommand: scan in order and stop at the first match. */
  method FindCommand(catalog: seq<Command>, request: string) returns (command: Option<Command>)
    ensures command == Lookup(catalog, request)
  {
    command := None;
    for i := 0 to |catalog|
      invariant Lookup(catalog, request) == Lookup(catalog[i..], request)
    {
      if EqualsIgnoreCase(request, catalog[i].name) {
        command := Some(catalog[i]);
        break;
      }
      assert catalog[i..][1..] == catalog[i + 1..];
    }
  }

  /** Lookup finds the same command in a catalog and in any catalog it is a prefix of, when it finds one. */
  lemma {:induction false} LookupPrefix(front: seq<Command>, back: seq<Command>, request: string)
    requires Lookup(front, request).Some?
    ensures Lookup(front + back, request) == Lookup(front, request)
  {
    if !Names(request, front[0]) {
      assert (front + back)[1..] == front[1..] + back;
      LookupPrefix(front[1..], back, request);
    }
  }

  /** On a duplicate name, a service-registered command wins over the one in launcher.xml. */
  lemma RegisteredCommandsWin(registered: seq<Command>, fromFile: seq<Command>, request: string)
    requires exists i :: 0 <= i < |registered| && Names(request, registered[i])
    ensures Lookup(Config(registered, fromFile), request) == Lookup(registered, request)
  {
    LookupPrefix(registered, fromFile, request);
  }

  /** Lookup ignores the case of ASCII letters in the request. */
  lemma {:induction false} LookupIgnoresCase(catalog: seq<Command>, request: string, other: string)
    requires EqualsIgnoreCase(request, other)
    ensures Lookup(catalog, request) == Lookup(catalog, other)
  {
    if catalog != [] {
      LookupIgnoresCase(catalog[1..], request, other);
    }
  }
}
