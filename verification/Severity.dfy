/** The severity chain shared by change materiality and impact (packages/policy_engine/changes.py). */
module Severity {
  datatype Level = NoChange | Low | Medium | High
}
