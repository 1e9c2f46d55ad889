/**
 * The parts of Cycles' SVM shader compiler whose bodies appear in its header:
 * the value-stack `users` table of `SVMCompiler::Stack` and two getters.
 * The stack functions that are only declared there are not modelled.
 */
module SvmCompiler {
  import opened CyclesShader

  /** SVM_STACK_SIZE, the number of float slots of the SVM value stack. It is
      defined in the kernel's SVM type header (kernel/svm/svm_types.h is not
      part of this model), where it is 255. */
  const StackSize: nat := 255

  newtype uint32 = x: int | 0 <= x < 0x1_0000_0000

  /** How many users each stack slot has; a slot is free when it has none. */
  class Stack {
    var users: array<int>

    ghost predicate Valid() reads this { users.Length == StackSize }

    /** The default constructor clears the whole table. */
    constructor ()
      ensures Valid() && fresh(users)
      ensures forall i :: 0 <= i < users.Length ==> users[i] == 0
    {
      var a := new int[StackSize];
      var i := 0;
      while i < StackSize
        invariant 0 <= i <= StackSize == a.Length
        invariant forall j :: 0 <= j < i ==> a[j] == 0
      {
        a[i] := 0;
        i := i + 1;
      }
      users := a;
    }

    /** The copy constructor: an identical table in storage of its own. */
    constructor Copy(other: Stack)
      requires other.Valid()
      ensures Valid() && fresh(users)
      ensures users[..] == other.users[..]
    {
      var a := new int[StackSize];
      var i := 0;
      while i < StackSize
        invariant 0 <= i <= StackSize == a.Length
        invariant forall j :: 0 <= j < i ==> a[j] == other.users[j]
      {
        a[i] := other.users[i];
        i := i + 1;
      }
      users := a;
    }

    /** Assignment copies the other table into this stack's own storage. */
    method Assign(other: Stack)
      requires Valid() && other.Valid()
      modifies users
      ensures Valid() && users == old(users)
      ensures users[..] == old(other.users[..])
    {
      var i := 0;
      while i < StackSize
        invariant 0 <= i <= StackSize
        invariant forall j :: 0 <= j < i ==> users[j] == old(other.users[j])
        invariant forall j :: i <= j < StackSize ==> other.users[j] == old(other.users[j])
      {
        users[i] := other.users[i];
        i := i + 1;
      }
    }

    /** A stack is empty when no slot has a user. */
    method Empty() returns (r: bool)
      requires Valid()
      ensures r <==> forall i :: 0 <= i < StackSize ==> users[i] == 0
    {
      var i := 0;
      while i < StackSize
        invariant 0 <= i <= StackSize
        invariant forall j :: 0 <= j < i ==> users[j] == 0
      {
        if users[i] != 0 {
          return false;
        }
        i := i + 1;
      }
      return true;
    }
  }

  /** The compiler fields read by the two getters. */
  class Compiler {
    var mixWeightOffset: uint32
    var currentType: ShaderType

    constructor (offset: uint32, t: ShaderType)
      ensures mixWeightOffset == offset && currentType == t
    {
      mixWeightOffset := offset;
      currentType := t;
    }

    method ClosureMixWeightOffset() returns (r: uint32)
      ensures r == mixWeightOffset
    {
      r := mixWeightOffset;
    }

    method OutputType() returns (t: ShaderType)
      ensures t == currentType
    {
      t := currentType;
    }
  }

  /** A copy shares no storage with its original: after it is taken, writing
      to the original leaves the copy as it was. */
  method CopyIsIndependent(s: Stack, slot: nat, n: int) returns (c: Stack)
    requires s.Valid() && slot < StackSize
    modifies s.users
    ensures c.Valid() && c.users[..] == old(s.users[..])
    ensures s.users[slot] == n
  {
    c := new Stack.Copy(s);
    s.users[slot] := n;
  }
}
