module Common {
  datatype Option<+T> = None | Some(value: T)

  lemma Inhabited(s: set<int>)
    requires s != {}
    ensures exists y :: y in s
  {
    if forall y: int :: y !in s {
      assert false;
    }
  }
}
