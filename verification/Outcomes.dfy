/** Shared failure-carrying values: an optional value, and a result whose error
    is one of the catalog's error kinds (src/managed_catalog.rs, `CatalogError`). */
module Outcomes {
  datatype Option<+T> = None | Some(value: T)

  datatype Error = Invalid | Corrupt | Incomplete | PoolBusy

  datatype Result<+T> = Ok(value: T) | Err(error: Error)
}
