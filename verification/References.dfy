// The reference strings of the ledger. Every idempotency argument rests on two
// different movements never sharing a string.
module References {
  import opened Ledger

  /** The string stored for a reference; `name` spells an id. */
  function Render(ref: Ref, name: nat -> string): string {
    match ref
    case LockOf(a) => "esc_lock_" + name(a)
    case Out(g) => "esc_rel_" + name(g) + ":out"
    case In(g) => "esc_rel_" + name(g) + ":in"
    case RefundOf(a) => "esc_ref_" + name(a)
    case DepositOf(p) => "dep_" + name(p)
    case WithdrawalOf(p) => "wd_" + name(p)
    case ReversalOf(p) => "wdrev_" + name(p)
    case Opening(w) => "opening_" + name(w)
  }

  lemma AfterPrefix(p: string, x: string, y: string)
    requires p + x == p + y
    ensures x == y
  {
    assert x == (p + x)[|p|..] && y == (p + y)[|p|..];
  }

  lemma BeforeSuffix(x: string, y: string, q: string)
    requires x + q == y + q
    ensures x == y
  {
    assert |x| == |y|;
    assert x == (x + q)[..|x|] && y == (y + q)[..|y|];
  }

  /** The characters that tell the prefixes apart, and the last one, which tells the halves apart. */
  lemma Shape(ref: Ref, name: nat -> string)
    ensures var s := Render(ref, name);
      match ref
      case LockOf(_) => |s| > 6 && s[0] == 'e' && s[4] == 'l'
      case Out(_) => |s| > 6 && s[0] == 'e' && s[4] == 'r' && s[6] == 'l' && s[|s| - 1] == 't'
      case In(_) => |s| > 6 && s[0] == 'e' && s[4] == 'r' && s[6] == 'l' && s[|s| - 1] == 'n'
      case RefundOf(_) => |s| > 6 && s[0] == 'e' && s[4] == 'r' && s[6] == 'f'
      case DepositOf(_) => |s| > 2 && s[0] == 'd'
      case WithdrawalOf(_) => |s| > 2 && s[0] == 'w' && s[2] == '_'
      case ReversalOf(_) => |s| > 2 && s[0] == 'w' && s[2] == 'r'
      case Opening(_) => |s| > 2 && s[0] == 'o'
  {
  }

  /** Injective over kind and id, for any ids at all: no two movements share a string. */
  lemma RenderInjective(r1: Ref, r2: Ref, name: nat -> string)
    requires forall i: nat, j: nat :: name(i) == name(j) ==> i == j
    requires Render(r1, name) == Render(r2, name)
    ensures r1 == r2
  {
    Shape(r1, name);
    Shape(r2, name);
    match (r1, r2)
    case (LockOf(a), LockOf(b)) => AfterPrefix("esc_lock_", name(a), name(b));
    case (Out(a), Out(b)) =>
      BeforeSuffix("esc_rel_" + name(a), "esc_rel_" + name(b), ":out");
      AfterPrefix("esc_rel_", name(a), name(b));
    case (In(a), In(b)) =>
      BeforeSuffix("esc_rel_" + name(a), "esc_rel_" + name(b), ":in");
      AfterPrefix("esc_rel_", name(a), name(b));
    case (RefundOf(a), RefundOf(b)) => AfterPrefix("esc_ref_", name(a), name(b));
    case (DepositOf(a), DepositOf(b)) => AfterPrefix("dep_", name(a), name(b));
    case (WithdrawalOf(a), WithdrawalOf(b)) => AfterPrefix("wd_", name(a), name(b));
    case (ReversalOf(a), ReversalOf(b)) => AfterPrefix("wdrev_", name(a), name(b));
    case (Opening(a), Opening(b)) => AfterPrefix("opening_", name(a), name(b));
    case (_, _) =>
  }
}
