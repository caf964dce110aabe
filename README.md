# Hammock shop backend: catalog and reservations

A model of the Hamacas Suazo backend (`main.py`), which has two parts:

- **The static catalog** (`build_products`). It holds seven hammock products in a fixed order: `matrimonial`, `unipersonal`, `familiar`, `hamacasilla`, `chino`, `montanera`, `ninos`. Every product is offered in the palette `tabaco`, `marfil`, `negro`, `blanco`. Each product has one image per colour, at `/products/<id>/<colour>.jpg`.
- **The reservation endpoint** (`create_reservation`). It indexes the catalog by id and runs two fail-fast checks:
  - an unknown hammock type is a 400 with detail "Invalid hammock type";
  - a colour the product is not offered in is a 400 with detail "Invalid color for selected product".

  Only a request that passes both checks reaches the document store. The store is asked to keep, under the category `"reservation"`, a record that copies the request's fields unchanged. A store error becomes a 500 whose detail is `"Database error: "` followed by the error text. A store success becomes `{"status": "ok", "reservation_id": id}`.

Files:
- `catalog.dfy` (module `Catalog`) holds `Product`, the palette, image paths, `BuildProducts`, and the id index `IndexById`. The index is the dictionary comprehension at main.py:129, built by left-to-right insertion.
- `reservations.dfy` (module `Reservations`) holds the request and record types, validation (`Validate`), the write the store receives (`StoreCall`), the outcome (`CreateReservation`) and the HTTP answer (`HandleCreateReservation`).

The store (`database.create_document`) is not part of this model. What it answers is an input, `StoreResult`: either `Stored(id)` or `StoreFailed(cause)`, where `cause` is the text `str(e)` of the exception it raised. `StoreCall` states which write the service issues, and whether it issues one at all. `CreateReservation` returns the same outcome whatever `StoreResult` is supplied for a request that is rejected (`RejectionIgnoresStore`).

The comment at main.py:146 says a database failure is "still acknowledged" in a degraded mode. The code raises a 500 error instead. The model follows the code.

`BuildProducts` takes no arguments. In Dafny it is therefore a constant, so two calls give equal lists by construction.

## Model

| member | source | states |
|---|---|---|
| `Catalog.BuildProducts` | main.py:35-110 | the catalog has exactly seven products, and their ids are `matrimonial`, `unipersonal`, `familiar`, `hamacasilla`, `chino`, `montanera`, `ninos` in that order |
| `Catalog.MakeProductWellFormed` | main.py:37-48 | an entry built from the palette has exactly one image per palette colour, at `/products/<id>/<colour>.jpg` |
| `Catalog.CatalogWellFormed` | main.py:37-108 | every catalog product has the palette `tabaco, marfil, negro, blanco` as its colours; its image keys are exactly those colours; each key maps to the product's own image path |
| `Catalog.CatalogIdsDistinct` | main.py:39-110 | no two catalog products share an id |
| `Catalog.IndexById` | main.py:129 | the id index has exactly the ids of the list as keys, and each key leads to a product of the list with that id |
| `Catalog.IndexByIdKeepsAll` | main.py:129 | when ids are distinct, the index has one entry per product, and each product's id leads back to that very product (indexing loses nothing) |
| `Catalog.CatalogIndex` | main.py:129 | the catalog's index has the seven catalog ids as keys, seven entries, and each id leads to its catalog product |
| `Catalog.ImagePathInjective` | main.py:48 | for ids without `/`, an image path determines both the product id and the colour |
| `Catalog.ImagesDistinct` | main.py:37-48 | among well-formed entries with distinct, slash-free ids, two (entry, colour) pairs with the same image path are the same pair |
| `Catalog.CatalogIdsSlashFree` | main.py:39-110 | no catalog id contains `/` |
| `Catalog.CatalogImagesDistinct` | main.py:37-110 | no two of the catalog's 28 (product, colour) images share a path |
| `Reservations.OfferedIffPalette` | main.py:129-133 | a hammock type is known exactly when it is one of the seven catalog ids; it is offered in a colour exactly when, in addition, the colour is in the palette |
| `Reservations.Validate` | main.py:129-133 | an unknown type is rejected as an invalid type whatever the colour; a known type with a colour it is not offered in is rejected as an invalid colour; otherwise the request is accepted with its record; each iff |
| `Reservations.StoreCall` | main.py:136-144 | the store is written exactly when both checks pass, and then with category `"reservation"` and a record copying name, colour, hammock type, phone and message unchanged (an absent message stays absent) |
| `Reservations.CreateReservation` | main.py:127-147 | invalid type, then invalid colour, win over everything else; a valid request yields `Ok(id)` with the store's id unchanged, or `PersistFailed(cause)` with the store's error text |
| `Reservations.HandleCreateReservation` | main.py:126-149 | the HTTP answer is 400 "Invalid hammock type", 400 "Invalid color for selected product", 500 "Database error: " + cause, or `{"status": "ok", "reservation_id": id}`; success iff the request is valid and the store succeeded |
| `Reservations.RejectionIgnoresStore` | main.py:130-133 | a rejected request's outcome is an invalid type or invalid colour, and it is the same whatever the store would answer |
| `Reservations.StoreFailureIsError` | main.py:143-147 | a store failure never yields a success; for a valid request it yields a 500 whose detail, after the prefix, is exactly the store's error text |
| `Reservations.RespondInjective` | main.py:130-149 | different outcomes give different HTTP answers, so the answer keeps the store's id and error text |
| `Reservations.ExampleReservation` | main.py:118-149 | a single hammock in black without a message leads to a write of the record with its message absent, and the store's id comes back in an `"ok"` answer |

## Left out

- FastAPI setup, CORS middleware, route decorators and the `/` banner (main.py:9-21, 113-115): framework plumbing with no logic.
- `list_products` (main.py:113-115) only returns `build_products()`. It is covered by `Catalog.BuildProducts`.
- The `/test` health check (main.py:152-159): it reads a global handle of the `database` module, which is not part of this model.
- `database.create_document` and `schemas.Reservation`: not part of this model. The store's answer is an input, and the record is a plain copy of the request's fields.
- Field coercion and type checking by pydantic's `BaseModel`: library behaviour. Requests are taken as already well-typed.
- The localized names and descriptions of products: display text with no behaviour.
- `base_price` is a float in the source. It is kept as a whole number (`nat`), since every price is a whole amount and none is computed with.
- The uvicorn entry point and the `PORT` environment variable (main.py:162-165): I/O.
