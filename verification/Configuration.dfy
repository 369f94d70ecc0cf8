// The check made on the configuration after it has passed its JSON schema.

module Configuration {
  import opened Basics
  import opened StreamReservation

  // Whether an init asking for n streams gets past the limit on a server where no
  // stream is reserved.
  ghost predicate AdmittedWhenIdle(c: Config, n: int) {
    var loaded := Apply(c, Initial(c), Event(0, LoadCounter(n)));
    loaded.Some? && Apply(c, loaded.value, Event(0, CheckLimit)).Some? &&
    Apply(c, loaded.value, Event(0, CheckLimit)).value.tasks[0].Opening?
  }

  // The check holds exactly when every handle size the server allows can be
  // reserved on an idle server.
  method MeetsPostSchemaRequirements(c: Config) returns (valid: bool)
    requires c.MeetsSchema()
    ensures valid <==> forall n :: 1 <= n <= c.perHandle ==> AdmittedWhenIdle(c, n)
  {
    valid := true;
    if c.perHandle > c.total {
      assert !AdmittedWhenIdle(c, c.perHandle);
      valid := false;
    }
  }
}
